# Verification of the skynet runtime and its allocator

A Dafny model of the algorithmic core of the skynet actor runtime, of the gate, harbor, master and Lua services around it, and of
the memory allocator it vendors. Inputs and outputs, clocks, randomness and the operating system are parameters or steps that may happen in any order.

| module | what it models |
|---|---|
| TimingWheel | the hierarchical timing wheel, proved against a list of pending nodes, and its runs with concurrent adders |
| Rings, Mailbox, MailboxRuns | the circular message queue of a service and its scheduling fields, proved against a sequence |
| Scheduler, SchedulerSteps, SchedulerRuns, SchedulerFlow | the token protocol of message queues, dispatching workers, senders, reference counts and session locks, over whole runs |
| GlobalRing, GlobalRingRuns | the lock-free ring of scheduled queues, one memory access a step |
| RwLock | the reader-writer spin lock, one atomic operation a step |
| PageTiling, PageRuns | the page-run allocator of an arena: page map, trees and counters against a tiling by runs |
| RegionIndex | the region index by multiplication with a reciprocal |
| ChunkExtents | the recycler of chunks: two ordered sets of free extents |
| CuckooHash | the cuckoo hash table with evictions, rebuilding, growing and shrinking |
| GateRing, GateChains | the receive buffer of the gate, in one byte array, and the byte queues of its connections |
| Bytes, LuaSeri, BlockChain | the wire format of Lua values and the chain of 128-byte blocks it is written to |
| MulticastGroup | the in-place merge and deletion of group members |
| GlobalNames | the protocol of harbors and master for global names, and the queue of messages for a name not yet known |
| HandleTable, HandleRegistrations, HandleRuns, HandleReuse, HandleRecovery, HandleRaces, HandleStore | the table of live services, with registrations whose handle is written after the table is unlocked |
| NameIndex | the sorted index of names |
| CoalescedMap | the three maps with coalesced chains |
| Arithmetic, Wrappers | shared helpers |

State that the source updates in place is a class whose methods are proved against a ghost or abstract value: a list, a map, a tiling, a sequence of bytes.
Protocols are state machines whose steps are the locked regions or atomic operations; their theorems are about every reachable state of every run.

Where the code does not do what one would expect, the model follows the code:

- The queue of a service that locks a session and exits in the same callback is scheduled while a worker still dispatches it (`SchedulerRuns.LockThenExit`), and can be freed before that worker pushes it back (`SchedulerRuns.UseAfterFree`); `SchedulerRuns.ReleaseWhileLocking` gives the exact condition.
- `skynet_mq_mark_release` takes no lock: if a worker pops the queue between its two accesses, an assertion fails unless a session is locked (`SchedulerRuns.BetweenTheHalves`, with the run of `SchedulerRuns.RetiredWhileIdle`).
- A pop of the global ring answers "empty" on an exactly full ring (`GlobalRing.EmptyAnswer`, with the run of `GlobalRingRuns.FullRingLooksEmpty`), and outside the window a flag cleared late hides a published ticket (`GlobalRingRuns.LateClearHidesTicket`); `GlobalRing.StepExact` gives the exact condition of every access.
- An insertion into the cuckoo table that fails for lack of memory, when the first growth already fails, has stored the new item and lost an old one (`CuckooHash.Cuckoo.Insert`, `CuckooHash.FillAndLose`); after a growth the lost item can be the new one (`CuckooHash.LoseNew`).
- Messages waiting for a global name are dropped when the harbor they wait in registers the name itself (`GlobalNames.OwnNameDrops`, `GlobalNames.EarlySendLost`).
- A message to a known name in a harbor without a connection makes the master close its own connection to that harbor, which hears of no registration from then on (`GlobalNames.WhenCutOff`, `GlobalNames.CutOffForGood`, `GlobalNames.UnreachedIsCutOff`).
- A context whose registration is not complete when another one doubles the handle table fails an assertion or is not found until the next doubling, unless its unwritten handle field happens to give the right slot (`HandleRuns.TakeExact`, `HandleRaces.SecondRegistrationCollides`, `HandleRaces.SecondRegistrationMisplaces`); `HandleRecovery.RecoveryExact` says when that next doubling puts the table right.
- The two forms of a number map may answer differently for a number that was given twice: exactly when its first item is in its home slot in the hash form and its first and last values differ (`CoalescedMap.FormsAgree`, `CoalescedMap.FormsDiffer`).

To check the project: `dafny verify dfyconfig.toml`.

## Model

| member | source | states |
|---|---|---|
| TimingWheel.Place | dn/skynet-src/skynet_timer.c:73-91 | the list a node belongs to is determined by expiry and time alone, and is always one of the 256 near or four times 63 level lists: no index is ever -1 |
| TimingWheel.DueSlot | dn/skynet-src/skynet_timer.c:73-91 | a node lies in the near list of the present time if and only if it expires now |
| TimingWheel.TickWithCarry | dn/skynet-src/skynet_timer.c:106-130 | when the time becomes a multiple of 256, exactly the nodes of the one carried list change place, and they move to lists below its level |
| TimingWheel.AddKeeps | dn/skynet-src/skynet_timer.c:73-104 | linking a node keeps "every node sits where add_node would put it now", and per expiry the order of the calls |
| TimingWheel.DueExact | dn/skynet-src/skynet_timer.c:150-164 | the near list of the present time is exactly the pending nodes that expire now, in the order in which they were added |
| TimingWheel.TickKeeps | dn/skynet-src/skynet_timer.c:106-130 | a tick without carry leaves every node where it belongs |
| TimingWheel.CascadeKeeps | dn/skynet-src/skynet_timer.c:106-130 | a tick with carry: relinking the carried list node by node restores the place of every node and the order per expiry |
| TimingWheel.Timer.FindLevel | dn/skynet-src/skynet_timer.c:81-89 | the shift-and-mask loop finds the level and index that the quotients of the two times determine |
| TimingWheel.Timer.AddNode | dn/skynet-src/skynet_timer.c:73-91 | the node is linked at the tail of its list; no other list changes |
| TimingWheel.Timer.TimerAdd | dn/skynet-src/skynet_timer.c:93-104 | one more pending node, at the end of the insertion order |
| TimingWheel.Timer.TimerExecute | dn/skynet-src/skynet_timer.c:150-164 | dispatches exactly what is due now, in insertion order, and removes it |
| TimingWheel.Timer.FindCarry | dn/skynet-src/skynet_timer.c:109-128 | the loop finds the carried list exactly when the time is a multiple of 256 |
| TimingWheel.Timer.Cascade | dn/skynet-src/skynet_timer.c:116-122 | the list is emptied and its nodes are appended, in order, to the lists of their new places |
| TimingWheel.Timer.TimerShift | dn/skynet-src/skynet_timer.c:106-130 | one tick; the wheel stays exact for the new time, with the same pending nodes |
| TimingWheel.Timer.TimerUpdate | dn/skynet-src/skynet_timer.c:166-176 | dispatches what is due, ticks once, dispatches what is due then |
| TimingWheel.Timer.UpdateTime | dn/skynet-src/skynet_timer.c:263-283 | for every elapsed tick what expires at it is dispatched, all of it and in insertion order; nothing else is, expiries in the log never decrease, and later nodes stay |
| TimingWheel.StepExact | dn/skynet-src/skynet_timer.c:93-176 | the locked regions as steps of a system with any number of adding threads: every step keeps the log on time and "added = dispatched + pending" per expiry |
| TimingWheel.RunExact | dn/skynet-src/skynet_timer.c:93-176 | the same after any interleaving |
| TimingWheel.DispatchedExactlyOnce | dn/skynet-src/skynet_timer.c:93-176 | in every run: an event is dispatched when the time equals its expiry, never before, exactly once, and events of one expiry in the order in which they were added |
| TimingWheel.RunRequests | dn/skynet-src/skynet_timer.c:93-130 | in every run the time is the number of ticks, and the nodes added are those that the calls ask for, each expiring its delay after the ticks before it |
| TimingWheel.UpdateRound | dn/skynet-src/skynet_timer.c:150-176 | from every reached state the timer thread can run one timer_update: the time moves by one tick, and what expires then is dispatched |
| Rings.RingGrown | dn/skynet-src/skynet_mq.c:135-148 | the regrown array holds the same contents, wherever the ring was wrapped |
| Mailbox.MessageQueue.Pop | dn/skynet-src/skynet_mq.c:113-133 | the circular array refines a sequence: the first message is taken, or the queue is taken out of scheduling |
| Mailbox.MessageQueue.Expand | dn/skynet-src/skynet_mq.c:135-148 | the whole ring, from head and around, moves to the front of an array twice as long |
| Mailbox.MessageQueue.StoreHead | dn/skynet-src/skynet_mq.c:150-174 | one message more at the front, also when the array has to grow while wrapped |
| Mailbox.MessageQueue.StoreTail | dn/skynet-src/skynet_mq.c:176-202 | one message more at the back, also when the array has to grow |
| Mailbox.MessageQueue.Push | dn/skynet-src/skynet_mq.c:176-202 | the awaited reply goes to the front and ends the lock; anything else goes to the back; the queue is scheduled exactly when it was idle |
| Mailbox.MessageQueue.Lock | dn/skynet-src/skynet_mq.c:204-212 | the session given is locked and the queue is dispatching, with the messages as they were |
| Mailbox.MessageQueue.PushGlobal | dn/skynet-src/skynet_mq.c:230-243 | the end of a dispatch: scheduled again unless a session is locked |
| Mailbox.MessageQueue.MarkRelease | dn/skynet-src/skynet_mq.c:245-252 | marks the release and schedules the queue if it is not |
| Mailbox.MessageQueue.Drop | dn/skynet-src/skynet_mq.c:254-270 | all messages, each once and in order, come out of a queue that is released |
| MailboxRuns.RunKeeps | dn/skynet-src/skynet_mq.c:113-243 | after any sequence of sends, pops, locks and ends of dispatch the ordinary messages popped and waiting are those sent, in their order |
| MailboxRuns.FirstInFirstOut | dn/skynet-src/skynet_mq.c:113-202 | the ordinary messages popped are always the first ones sent, in their order, and the others wait in that order |
| MailboxRuns.ReplyOvertakes | dn/skynet-src/skynet_mq.c:176-202 | the reply that ends a lock is popped before everything that waits, which keeps its order |
| MailboxRuns.LockStays | dn/skynet-src/skynet_mq.c:176-243 | after session k is locked, messages of other sessions go to the back, nothing schedules the queue, and the lock stays, past the end of the dispatch |
| MailboxRuns.ReplyUnlocks | dn/skynet-src/skynet_mq.c:150-243 | the first message with session k ends the lock and is popped next; the queue is scheduled once the dispatch has ended |
| SchedulerSteps.CreateKeeps | dn/skynet-src/skynet_server.c:80-127 | keeps the invariant of the service, one token and exact scheduling, over this step: a new context and queue |
| SchedulerSteps.InitSucceedsKeeps | dn/skynet-src/skynet_server.c:80-127 | keeps the invariant of the service, one token and exact scheduling, over this step: init returns without error |
| SchedulerSteps.ForcePushKeeps | dn/skynet-src/skynet_mq.c:224-227 | keeps the invariant of the service, one token and exact scheduling, over this step: the creator gives its token to the global queue |
| SchedulerSteps.InitFailsKeeps | dn/skynet-src/skynet_server.c:80-127 | keeps the invariant of the service, one token and exact scheduling, over this step: init fails and the reference is released |
| SchedulerSteps.RetireFailedKeeps | dn/skynet-src/skynet_server.c:80-127 | keeps the invariant of the service, one token and exact scheduling, over this step: the failed context is retired |
| SchedulerSteps.ReleaseFailedKeeps | dn/skynet-src/skynet_mq.c:273-287 | keeps the invariant of the service, one token and exact scheduling, over this step: the queue of a failed context is released |
| SchedulerSteps.PopGlobalKeeps | dn/skynet-src/skynet_server.c:253-292 | keeps the invariant of the service, one token and exact scheduling, over this step: a worker takes a queue |
| SchedulerSteps.GrabKeeps | dn/skynet-src/skynet_server.c:253-292 | keeps the invariant of the service, one token and exact scheduling, over this step: the worker looks for the context |
| SchedulerSteps.ReleaseRetiredKeeps | dn/skynet-src/skynet_mq.c:273-287 | keeps the invariant of the service, one token and exact scheduling, over this step: the queue of a retired context is released |
| SchedulerSteps.PopMessageKeeps | dn/skynet-src/skynet_mq.c:113-133 | keeps the invariant of the service, one token and exact scheduling, over this step: the worker takes a message |
| SchedulerSteps.LockSessionKeeps | dn/skynet-src/skynet_mq.c:204-212 | keeps the invariant of the service, one token and exact scheduling, over this step: a callback locks a session |
| SchedulerSteps.FinishKeeps | dn/skynet-src/skynet_server.c:253-292 | keeps the invariant of the service, one token and exact scheduling, over this step: the callback ends and the reference is released |
| SchedulerSteps.PushGlobalKeeps | dn/skynet-src/skynet_mq.c:230-243 | keeps the invariant of the service, one token and exact scheduling, over this step: the dispatch ends |
| SchedulerSteps.SendUnlockKeeps | dn/skynet-src/skynet_mq.c:176-202 | keeps the invariant of the service, one token and exact scheduling, over this step: the awaited reply arrives |
| SchedulerSteps.SendQueuedKeeps | dn/skynet-src/skynet_mq.c:176-202 | keeps the invariant of the service, one token and exact scheduling, over this step: another message arrives |
| SchedulerSteps.RetireKeeps | dn/skynet-src/skynet_handle.c:67-94 | keeps the invariant of the service, one token and exact scheduling, over this step: a context is retired |
| SchedulerSteps.MarkReleaseKeeps | dn/skynet-src/skynet_mq.c:245-252 | keeps the invariant of the service, one token and exact scheduling, over this step: the last reference is dropped, the queue not being in dispatch with a lock |
| SchedulerSteps.StepKeeps | dn/skynet-src/skynet_mq.c:85-287 | every step of any thread keeps the invariant of every service, and works on allocated queues only |
| SchedulerRuns.RunKeeps | dn/skynet-src/skynet_mq.c:85-287 | the invariant after any run |
| SchedulerRuns.MutualExclusion | dn/skynet-src/skynet_server.c:253-292 | in every run no service runs on two threads at once, and none before its init has completed |
| SchedulerRuns.NoAssertionFails | dn/skynet-src/skynet_mq.c:150-287 | in every run the assertions of the queue code hold at every enabled step |
| SchedulerRuns.NoLostWakeUp | dn/skynet-src/skynet_mq.c:113-243 | in every run a queue with messages and no locked session has its token, and no queue has two |
| SchedulerRuns.LockedIsNotScheduled | dn/skynet-src/skynet_mq.c:204-243 | in every run a queue with a locked session is not in the global queue, and no one holds it once the locking dispatch has ended |
| SchedulerRuns.UnlockingReplyIsNext | dn/skynet-src/skynet_mq.c:150-202 | in every run the reply that ended a lock is the very next message popped |
| SchedulerRuns.FreedOnce | dn/skynet-src/skynet_mq.c:273-287 | in every run a freed queue is never allocated, referred to or freed again |
| SchedulerFlow.BoxAfterCalls | dn/skynet-src/skynet_mq.c:113-243 | in every run the queue of a service is its mailbox after the calls that the steps make on it, in their order |
| SchedulerFlow.DispatchedInOrder | dn/skynet-src/skynet_mq.c:113-243 | in every run, whatever threads send and dispatch, of the ordinary messages sent to a service the first ones have been taken by workers, in the order of sending, and the others wait |
| SchedulerFlow.NothingForgotten | dn/skynet-src/skynet_server.c:136-167 | in every run a context that is out of the table and that no thread refers to is marked for release, or a thread is on its way to do so |
| SchedulerFlow.TableExact | dn/skynet-src/skynet_handle.c:31-94 | a service is in the table from its creation until it is retired or its launch fails |
| SchedulerFlow.AwaitedIsUrgent | dn/skynet-src/skynet_mq.c:150-202 | in every run the reply that the other rows call awaited is the one that ended a lock and has not been popped, and it is the first message that waits |
| SchedulerFlow.FailedLaunch | dn/skynet-src/skynet_server.c:80-127 | in every run a launch whose init fails leaves nothing behind, if no other thread has looked the context up meanwhile |
| SchedulerFlow.Launch | dn/skynet-src/skynet_server.c:80-127 | in every run a launch whose init succeeds makes a live service with an empty queue at the end of the global queue |
| SchedulerFlow.DispatchRound | dn/skynet-src/skynet_server.c:253-292 | in every run a worker that finds a live service with messages at the head of the global queue can run it with the first message and put it back at the end |
| SchedulerFlow.SendRound | dn/skynet-src/skynet_server.c:156-167 | a message sent to an unlocked live service is the last in its queue, which is scheduled if it was idle |
| SchedulerRuns.ReleaseWhileLocking | dn/skynet-src/skynet_mq.c:245-252 | the invariant survives mark_release if and only if the queue is not dispatching with a locked session: the assumption is exact |
| SchedulerRuns.SecondToken | dn/skynet-src/skynet_mq.c:245-252 | otherwise the queue is scheduled while a worker still dispatches it: there are two tokens |
| SchedulerRuns.UseAfterFree | dn/skynet-src/skynet_mq.c:230-287 | what follows: another worker pops the queue, finds no context and frees it, while the first one is about to push it back |
| SchedulerRuns.LockThenExit | dn/skynet-src/skynet_mq.c:204-252 | a run that gets there: a service locks a session and exits in the same callback |
| SchedulerRuns.BetweenTheHalves | dn/skynet-src/skynet_mq.c:224-287 | mark_release as its two accesses: a worker that pops the queue between them fails the assertion of force_push if and only if no session is locked; otherwise it pushes the queue again and nothing is different |
| SchedulerRuns.RetiredWhileIdle | dn/skynet-src/skynet_mq.c:245-287 | a run that gets there: a service with an empty queue is retired |
| GlobalRing.WriteSlotExact | dn/skynet-src/skynet_mq.c:54 | writing a slot keeps the relation of slots, flags and tickets if and only if no published ticket that is not yet popped has the slot with another queue |
| GlobalRing.ReadFlagExact | dn/skynet-src/skynet_mq.c:72-74 | reading the flag keeps it unless the flag read is raised, the ticket is at the head and has not been published: the flag is stale |
| GlobalRing.SwapExact | dn/skynet-src/skynet_mq.c:79 | the compare-and-swap keeps it if and only if the head is the ticket itself whenever both are equal modulo 2^32 |
| GlobalRing.ClearFlagExact | dn/skynet-src/skynet_mq.c:80-82 | clearing the flag after the swap keeps it if and only if no other raised ticket shares the slot |
| GlobalRing.StepExact | dn/skynet-src/skynet_mq.c:51-83 | every single memory access of push and pop, by any thread, keeps the relation of slots, flags and tickets if and only if its guard holds |
| GlobalRing.UnharmedRunExact | dn/skynet-src/skynet_mq.c:51-83 | any run whose accesses pass their guards pops in ticket order what was pushed, and the first access that does not breaks the relation |
| GlobalRing.WindowHarmless | dn/skynet-src/skynet_mq.c:51-83 | within the window every access passes its guard |
| GlobalRing.StepKeeps | dn/skynet-src/skynet_mq.c:51-83 | so every access within the window keeps the relation |
| GlobalRing.RunKeeps | dn/skynet-src/skynet_mq.c:51-83 | the same after any run in which at most 0x10000 tickets lie from the oldest unfinished pop to the tail |
| GlobalRing.PoppedExactlyOnceInOrder | dn/skynet-src/skynet_mq.c:51-83 | in every such run the popped queues are the pushed ones in ticket order, each popped by one thread, never an unpublished or stale slot |
| GlobalRingRuns.PushSteps | dn/skynet-src/skynet_mq.c:51-59 | a push that no one disturbs publishes its ticket in three accesses |
| GlobalRingRuns.PopLoads | dn/skynet-src/skynet_mq.c:62-78 | a pop that no one disturbs gets as far as the swap with the queue of the ticket at the head, if that is published and the ring is not exactly full |
| GlobalRingRuns.PopRound | dn/skynet-src/skynet_mq.c:79-85 | and its swap and the clearing of the flag take exactly that ticket out |
| GlobalRingRuns.FullRingLooksEmpty | dn/skynet-src/skynet_mq.c:62-70 | a run within the window after which a pop finds nothing although 0x10000 queues are published |
| GlobalRingRuns.LateClearHidesTicket | dn/skynet-src/skynet_mq.c:72-82 | a run outside the window in which a pop that sleeps before its last access clears the flag of a later, published ticket |
| GlobalRing.NeverOverfull | dn/skynet-src/skynet_mq.c:51-83 | the ring never holds more than its slots |
| GlobalRing.EmptyAnswer | dn/skynet-src/skynet_mq.c:62-70 | a pop whose head is current answers "empty" if and only if nothing is pushed or the ring is exactly full |
| RwLock.ReadersMove | dn/skynet-src/rwlock.h:15-46 | one thread changes the number of readers by itself at most |
| RwLock.StepKeeps | dn/skynet-src/rwlock.h:15-46 | every atomic operation keeps the invariant |
| RwLock.RunKeeps | dn/skynet-src/rwlock.h:15-46 | the invariant after any interleaving of any number of threads |
| RwLock.Exclusion | dn/skynet-src/rwlock.h:15-46 | in every run a writer inside excludes all readers and all other writers, and `read` is the number of readers that have incremented and not yet decremented |
| RwLock.NoDeadlock | dn/skynet-src/rwlock.h:15-46 | from every state that is reached some continuation brings all threads out of the lock |
| RwLock.ReaderEnters | dn/skynet-src/rwlock.h:15-27 | without a writer a reader gets in, whoever else is reading |
| RwLock.WriterEnters | dn/skynet-src/rwlock.h:15-36 | a writer gets in if no one is in the lock, waits for the readers otherwise, and whoever wants to begin meanwhile spins |
| RegionIndex.ReciprocalExact | dn/jemalloc/include/jemalloc/internal/arena.h:761-831 | multiplying by 2^21/d + 1 and shifting equals dividing by d, without overflow in 32 bits, for d from 3 to 31 and all differences of a run |
| RegionIndex.QuotientOfMultiple | dn/jemalloc/include/jemalloc/internal/arena.h:761-831 | all three ways of dividing give the index back for an odd interval |
| RegionIndex.RegionsApart | dn/jemalloc/src/arena.c:314-327 | the regions of a run begin at its offset and lie one behind the other, an interval each |
| RegionIndex.RegIndInvertsAddress | dn/jemalloc/include/jemalloc/internal/arena.h:761-831 | arena_run_regind inverts the address computation of arena_run_reg_alloc, for every bin layout |
| PageTiling.FewerPairs | dn/jemalloc/src/arena.c:264-266 | there are more free runs than pairs of free neighbours, unless there are none: the asserted relation of the counters |
| PageTiling.NeighbourTests | dn/jemalloc/src/arena.c:208-245 | the two neighbour tests, which read one map entry, answer whether the neighbouring run is free |
| PageTiling.CountTaken | dn/jemalloc/src/arena.c:280-312 | the header counters stay equal to their definitions when a free run is taken |
| PageTiling.CountPut | dn/jemalloc/src/arena.c:247-278 | the same when a run is made free |
| PageTiling.LiveDisjoint | dn/jemalloc/src/arena.c:383-514 | live runs of a chunk have no page in common |
| PageTiling.Rework | dn/jemalloc/src/arena.c:383-514 | rewriting the map entries of a stretch leaves the tiling on both sides as it is |
| PageRuns.TakeKeeps | dn/jemalloc/src/arena.c:280-312 | runs_avail stays exactly the free runs, chunks_dirty the chunks with dirty free pages under their current counters, ndirty the sum |
| PageRuns.PutKeeps | dn/jemalloc/src/arena.c:247-278 | the same for an insertion |
| PageRuns.FreedCoalesced | dn/jemalloc/src/arena.c:1023-1075 | after coalescing with the neighbours of the same dirty flag no two neighbouring free runs share one |
| PageRuns.FreedMarks | dn/jemalloc/src/arena.c:1023-1075 | coalescing changes the use of no page |
| PageRuns.LowestBestFit | dn/jemalloc/src/arena.c:634-637 | the search finds the smallest run that is large enough, the lowest one among equals |
| PageRuns.BestFitExact | dn/jemalloc/src/arena.c:634-637 | the best fit of the other rows is the smallest run that is large enough and the lowest one of its size |
| PageRuns.Arena.AvailRemove | dn/jemalloc/src/arena.c:280-312 | map, trees and counters agree again with the run taken out |
| PageRuns.Arena.AvailInsert | dn/jemalloc/src/arena.c:247-278 | map, trees and counters agree again with the run put in |
| PageRuns.Arena.RunSplit | dn/jemalloc/src/arena.c:383-514 | the first pages become live, the rest stays a free run of the same flag, nactive grows by the pages |
| PageRuns.Arena.ChunkAlloc | dn/jemalloc/src/arena.c:516-594 | the spare chunk, or a new one, becomes one free run |
| PageRuns.Arena.RunAllocHelper | dn/jemalloc/src/arena.c:628-650 | the best fit is split; without one nothing changes |
| PageRuns.Arena.RunAlloc | dn/jemalloc/src/arena.c:652-685 | exactly the pages of the run become live, out of the best fit or of the chunk put to use; it fails only if nothing fits and there is no chunk |
| PageRuns.Arena.JoinForward | dn/jemalloc/src/arena.c:1023-1050 | the following run is joined exactly when it is free with the same flag |
| PageRuns.Arena.JoinBackward | dn/jemalloc/src/arena.c:1052-1079 | the preceding run is joined exactly when it is free with the same flag |
| PageRuns.Arena.RunDalloc | dn/jemalloc/src/arena.c:968-1102 | exactly the pages of the run become free with the flag the rules give, nactive shrinks by them, and a chunk that is one free run becomes the spare, an earlier spare being given back |
| PageRuns.Arena.ChunkDealloc | dn/jemalloc/src/arena.c:596-626 | the chunk leaves runs_avail and the counters and becomes the spare |
| PageRuns.Arena.TrimHead | dn/jemalloc/src/arena.c:1104-1134 | the leading pages are free with the old flag, the rest is a live run of its own |
| PageRuns.Arena.TrimTail | dn/jemalloc/src/arena.c:1136-1167 | the trailing pages are free, dirty if the caller or the run says so, the rest is a live run of its own |
| PageRuns.Arena.Palloc | dn/jemalloc/src/arena.c:1515-1567 | an aligned run of the size asked for is live; every other page, also those trimmed off, is as it was |
| ChunkExtents.JoinApart | dn/jemalloc/src/chunk.c:212-298 | extents stay disjoint and never address-adjacent when a range is recorded |
| ChunkExtents.JoinFree | dn/jemalloc/src/chunk.c:212-298 | recording adds exactly the range to the free addresses |
| ChunkExtents.JoinClear | dn/jemalloc/src/chunk.c:221-270 | a recorded range is known to hold zero if and only if it does itself and so do the extents it is joined to; nothing new is known elsewhere |
| ChunkExtents.CutApart | dn/jemalloc/src/chunk.c:84-118 | extents stay disjoint and never adjacent when a range is cut out |
| ChunkExtents.CutFree | dn/jemalloc/src/chunk.c:84-118 | cutting removes exactly the range from the free addresses |
| ChunkExtents.CutClear | dn/jemalloc/src/chunk.c:81-118 | cutting keeps what is known to hold zero, except the range, and the range is known to hold zero exactly if its extent is |
| ChunkExtents.BestFit | dn/jemalloc/src/chunk.c:68-75 | the smallest extent that is large enough, the lowest one among equals |
| ChunkExtents.Recycler.Record | dn/jemalloc/src/chunk.c:212-298 | both trees hold the same extents; the free addresses grow by exactly the range, and what is known to hold zero by it exactly if it and its neighbours do, unless a node cannot be allocated for it |
| ChunkExtents.Recycler.Carve | dn/jemalloc/src/chunk.c:77-117 | the range is cut out of its extent; if a node for the trailing part is lacking, the leading part is kept and the trailing part lost, and the range is free again unless it was unmapped |
| ChunkExtents.Recycler.Recycle | dn/jemalloc/src/chunk.c:44-136 | a recycled range is aligned, was free, lies in the best fit, and is exactly what is no longer free; it is said to hold zero exactly if all of it was known to; a failure without lack of nodes changes nothing and means that nothing fits |
| ChunkExtents.WrapAround | dn/jemalloc/src/chunk.c:64-67 | the overflow test of the padded size is exact |
| CuckooHash.Cuckoo.BucketSearch | dn/jemalloc/src/ckh.c:52-64 | the cell of a bucket with the key, if there is one |
| CuckooHash.Cuckoo.ISearch | dn/jemalloc/src/ckh.c:70-88 | the two buckets of a key are enough to decide whether it is stored |
| CuckooHash.Cuckoo.Search | dn/jemalloc/src/ckh.c:509-526 | the answer of the abstract map |
| CuckooHash.Cuckoo.TryBucketInsert | dn/jemalloc/src/ckh.c:91-114 | the item goes into an empty cell, whatever the random offset; it is refused only if the bucket is full |
| CuckooHash.Cuckoo.EvictRelocInsert | dn/jemalloc/src/ckh.c:123-190 | through any chain of evictions the contents and the item in hand are the old contents and the new item; when a cycle is found the hand holds an old item and the new one is stored; if the first item drawn has room in its other bucket, the insertion succeeds |
| CuckooHash.Cuckoo.TryInsert | dn/jemalloc/src/ckh.c:193-216 | the same for both buckets first; refused only if both are full |
| CuckooHash.Cuckoo.Rebuild | dn/jemalloc/src/ckh.c:222-243 | all items of the old table, or a failure with the old count |
| CuckooHash.Cuckoo.Grow | dn/jemalloc/src/ckh.c:245-298 | the contents are kept whether it succeeds or not, every table tried being twice as large as the last; it fails only without memory |
| CuckooHash.Cuckoo.Shrink | dn/jemalloc/src/ckh.c:300-345 | the contents are kept whether the rebuild succeeds or not; half as large if it does, as before if not |
| CuckooHash.Cuckoo.Insert | dn/jemalloc/src/ckh.c:454-475 | on success the map has the new binding; on failure it has it too but has lost one: an old one if the table has not been grown, so that without memory all old bindings stay if and only if it succeeds; in any failure they all stay if and only if the lost item is the new one; with room in either home bucket it succeeds; a completely full table without memory never takes another item; a table of one bucket without memory takes one if and only if it is not full |
| CuckooHash.Cuckoo.InsertIntoFull | dn/jemalloc/src/ckh.c:454-475 | an insertion into a full bucket without memory reports failure after replacing an old binding, against what a failure suggests |
| CuckooHash.FillAndLose | dn/jemalloc/src/ckh.c:454-475 | a table built by its constructor and four insertions takes a fifth key only by losing one of the four |
| CuckooHash.LoseNew | dn/jemalloc/src/ckh.c:454-475 | a table of one bucket that can grow once, filled by four insertions of colliding keys: the fifth fails, and it is the new item that is lost |
| CuckooHash.FullCount | dn/jemalloc/src/ckh.c:91-114 | a table without an empty cell has as many items as cells |
| CuckooHash.Cuckoo.Remove | dn/jemalloc/src/ckh.c:478-507 | the binding is gone, all others stay, through the shrinking as well, which is tried exactly if the table is larger than at first and less than a quarter full |
| GateRing.CarvedTiled | dn/gate/ringbuffer.c:63-84 | blocks tile the buffer again after one is carved out of a stretch |
| GateRing.CarvedHeaders | dn/gate/ringbuffer.c:63-84 | every header in memory is still that of its block |
| GateRing.CarvedKeeps | dn/gate/ringbuffer.c:63-84 | headers and bytes of all owned blocks are untouched |
| GateRing.RingBuffer.constructor | dn/gate/ringbuffer.c:38-47 | one free block tiles the buffer |
| GateRing.RingBuffer.Alloc | dn/gate/ringbuffer.c:62-105 | the new block lies in free blocks only, so no live byte or header is overwritten, at the head or, if the buffer ends too early, at the start, and the head moves behind it; it fails if and only if an owned block is in the way from the head on, or the buffer ends first and then an owned block is in the way from the start or the whole buffer is too small |
| GateRing.RingBuffer.Shrink | dn/gate/ringbuffer.c:135-154 | the block keeps its first bytes, the rest is free and the head is there, all owned blocks are untouched |
| GateRing.RingBuffer.Collect | dn/gate/ringbuffer.c:107-133 | all blocks of the owner of the first owned block from the head on, around the end, lose it; no payload byte changes |
| GateRing.ReleasedFewer | dn/gate/ringbuffer.c:122-133 | each collection leaves fewer owned blocks: the measure of the retry loop |
| GateRing.RingBuffer.AllocOrCollect | dn/gate/mread.c:741-749 | the retry loop ends for every request that fits the buffer; headers and bytes of clients that were not given up are untouched; it fails only when the active client is given up |
| GateChains.Distinct | dn/gate/ringbuffer.c:54-61 | no block occurs twice in a chain |
| GateChains.SizeSplit | dn/gate/ringbuffer.c:177-207 | bytes before and from a block add up to the whole |
| GateChains.RingLink | dn/gate/ringbuffer.c:54-61 | linking appends the bytes of the second chain to those of the first |
| GateChains.RingFree | dn/gate/ringbuffer.c:164-175 | exactly the blocks of the chain lose their owner |
| GateChains.RingData | dn/gate/ringbuffer.c:177-207 | the result is min(size, available - skip); a pointer is given exactly when the bytes lie in one block, and then points to exactly those bytes |
| GateChains.RingCopy | dn/gate/ringbuffer.c:209-239 | the target block holds exactly the wanted slice, across block boundaries; nothing else changes |
| GateChains.YieldedTail | dn/gate/ringbuffer.c:241-258 | moving the offset of the first remaining block leaves exactly the other bytes |
| GateChains.RingYield | dn/gate/ringbuffer.c:241-258 | what is left is exactly the suffix behind `skip`, and exactly the blocks that are used up are freed |
| LuaSeri.IntegerBytes | dn/lualib-src/lua-seri.c:209-235 | an integer is a type byte and zero, one, two or four bytes, as few as it fits except that a negative one takes four, in two's complement and lowest byte first |
| LuaSeri.StringBytes | dn/lualib-src/lua-seri.c:249-272 | up to 31 bytes the length of a string is in the first byte, up to 65535 in the next two, and in the next four otherwise, lowest byte first, before the bytes themselves |
| LuaSeri.FormatOf | dn/lualib-src/lua-seri.c:13-30 | the first byte of every value tells its type and what the format puts with it; doubles and pointers follow with eight bytes, a table begins with its size and ends with a nil |
| LuaSeri.IntegerTrip | dn/lualib-src/lua-seri.c:209-234 | every 32-bit integer is read back, in each of the five widths |
| LuaSeri.StringTrip | dn/lualib-src/lua-seri.c:249-274 | short strings and strings with two- and four-byte lengths are read back |
| LuaSeri.SizeTrip | dn/lualib-src/lua-seri.c:276-287 | array sizes below and from 31 on are read back |
| LuaSeri.OneTrip | dn/lualib-src/lua-seri.c:326-379 | unpacking the packed bytes of any value gives it back and leaves exactly the bytes behind it |
| LuaSeri.ListTrip | dn/lualib-src/lua-seri.c:276-296 | the same for the array part of a table |
| LuaSeri.FieldsTrip | dn/lualib-src/lua-seri.c:298-315 | the same for the hash part with its end mark |
| LuaSeri.StreamTrip | dn/lualib-src/lua-seri.c:598-644 | unpacking a packed list of values gives the list |
| LuaSeri.PackIffShallow | dn/lualib-src/lua-seri.c:326-334 | packing succeeds if and only if the nesting is within the limit |
| BlockChain.WriteBlock.Push | dn/lualib-src/lua-seri.c:57-77 | bytes are appended, whatever block boundaries they cross |
| BlockChain.WriteBlock.Close | dn/lualib-src/lua-seri.c:101-108 | the length is put before the contents, which stay |
| BlockChain.FlatAt | dn/lualib-src/lua-seri.c:564-596 | where a block lies in the flattened chain |
| BlockChain.Flatten | dn/lualib-src/lua-seri.c:564-596 | one buffer with everything behind the length, for every number of blocks |
| BlockChain.WriteInteger | dn/lualib-src/lua-seri.c:209-234 | the pushes of tag and digits append the packed integer |
| BlockChain.WriteString | dn/lualib-src/lua-seri.c:249-274 | the pushes of tag, length and bytes append the packed string |
| BlockChain.WriteOne | dn/lualib-src/lua-seri.c:326-379 | the recursive writer, push by push, appends the packed value, and fails exactly when it is nested too deep |
| BlockChain.WriteArray | dn/lualib-src/lua-seri.c:276-296 | the loop over the array part appends the packed elements |
| BlockChain.WriteHash | dn/lualib-src/lua-seri.c:298-315 | the loop over the other fields appends the packed fields and the end mark |
| BlockChain.PackToBuffer | dn/lualib-src/lua-seri.c:630-645 | the flattened chain is the concatenation of all pushes; the error case is that of the packing |
| BlockChain.Transfer | dn/lualib-src/lua-seri.c:598-645 | values written into blocks, flattened and unpacked come back, or nesting is too deep |
| MulticastGroup.ComparatorExact | dn/skynet-src/skynet_multicast.c:99-104 | the subtracting comparator orders two handles as numbers if and only if their difference fits 32 bits with sign |
| MulticastGroup.ComparatorSorts | dn/skynet-src/skynet_multicast.c:99-104 | it orders a set of handles as numbers if and only if no two of them are further apart |
| MulticastGroup.ComparatorAgrees | dn/skynet-src/skynet_multicast.c:99-104 | handles of one harbor, the only ones a group command lets in (skynet_server.c:306-317), are close enough |
| MulticastGroup.ComparatorWrapsAround | dn/skynet-src/skynet_multicast.c:99-104 | two handles that are too far apart, and are ordered the wrong way |
| MulticastGroup.MergeEnter | dn/skynet-src/skynet_multicast.c:120-150 | the backward merge in place gives the strictly sorted union, without overwriting an unread element |
| MulticastGroup.RemoveLeave | dn/skynet-src/skynet_multicast.c:152-186 | the forward deletion in place gives the strictly sorted difference |
| MulticastGroup.SortedUnique | dn/skynet-src/skynet_multicast.c:106-187 | the strictly sorted array of a set is unique |
| MulticastGroup.SetAlgebra | dn/skynet-src/skynet_multicast.c:106-187 | union and difference compose to (group + enter) - leave |
| MulticastGroup.Group.Reserve | dn/skynet-src/skynet_multicast.c:114-118 | the array is large enough and the members stay |
| MulticastGroup.Group.Combine | dn/skynet-src/skynet_multicast.c:106-187 | the members become (members + entered) - left, whatever the order and repetition of the requests, and the queues are empty |
| GlobalNames.RegisterKeeps | dn/service-src/service_harbor.c:453-464 | a registration by a harbor keeps: the harbor has been cut off, or a registration of its own is in flight, or the last value in flight to it (else its own) is the master's |
| GlobalNames.SendKeeps | dn/service-src/service_harbor.c:466-487 | sending to a name keeps it, and keeps "messages wait only for an unresolved name, for which a question or an answer is in flight unless the master has no answer" |
| GlobalNames.HearKeeps | dn/service-src/service_harbor.c:380-392 | an arriving value keeps both |
| GlobalNames.BroadcastKeeps | dn/service-src/service_master.c:164-204 | a broadcast keeps both, for every harbor |
| GlobalNames.RunKeeps | dn/service-src/service_master.c:164-204 | the invariant after any run of any set of harbors |
| GlobalNames.Convergence | dn/service-src/service_master.c:164-204 | when nothing is in flight, every harbor that has not been cut off has the value of the master if it was told since the last registration and none otherwise, and messages wait there only for names no one registered |
| GlobalNames.RegistrationsArrive | dn/service-src/service_harbor.c:453-464 | in every run the registrations that the master has taken in from a harbor, and then those on their way, are exactly those made at that harbor, with name and handle as given and in order |
| GlobalNames.MasterHasLast | dn/service-src/service_master.c:194-204 | in every run the master has for a name the handle of the registration it has taken in last, and none if there was none |
| GlobalNames.OnlyRegistrar | dn/service-src/service_master.c:164-204 | if one harbor alone registers a name, then at rest every harbor that was told and not cut off has the handle of the last registration made there |
| GlobalNames.Settles | dn/service-src/service_master.c:164-204 | after any run some deliveries lead to a state in which nothing is in flight |
| GlobalNames.LastWord | dn/service-src/service_master.c:194-204 | a registration, when taken in, is the last value on its way to every harbor that has joined |
| GlobalNames.SendOrder | dn/service-src/service_harbor.c:466-487 | in every run the messages to a name are handled in the order of sending, the ones that wait last, and they wait only while the name is unresolved |
| GlobalNames.AllAccounted | dn/service-src/service_harbor.c:466-487 | in every run exactly the messages that the actions send to a name are handled or wait, in their order |
| GlobalNames.Connections | dn/service-src/service_harbor.c:331-347 | in every run a harbor has a connection to exactly the other harbors it has been connected to |
| GlobalNames.KnownSend | dn/service-src/service_harbor.c:421-451 | a message to a known name goes to the handle that is known, locally, over the connection to its harbor, or nowhere if there is none |
| GlobalNames.WaitingDropped | dn/service-src/service_harbor.c:349-378 | waiting messages are dropped if and only if the harbor of the handle has no connection |
| GlobalNames.OwnNameDrops | dn/service-src/service_harbor.c:349-392 | in every run messages that wait at the very harbor that then registers the name are all dropped, while later ones are delivered locally |
| GlobalNames.EarlySendLost | dn/service-src/service_harbor.c:349-392 | a run of two steps in which that happens |
| GlobalNames.LocateKeeps | dn/service-src/service_master.c:206-221 | a request for an address, by which the master closes its connection to that harbor, keeps both for all other harbors |
| GlobalNames.WhenCutOff | dn/service-src/service_harbor.c:421-451 | a harbor is cut off exactly when the master takes in a request for its address, and the request is sent exactly when a message to a known name is dropped for want of a connection to it |
| GlobalNames.CutOffForGood | dn/service-src/service_master.c:164-230 | in every run a harbor that is cut off stays so and hears of no registration any more: what it has or is to have for a name changes only by registrations of its own |
| GlobalNames.UnreachedIsCutOff | dn/service-src/service_master.c:206-221 | a run of seven steps that cuts a harbor off by one message to it |
| GlobalNames.Relay | dn/service-src/service_harbor.c:65-98 | from its creation to its release a queue gives its messages out in the order of sending, however often it grows |
| GlobalNames.PendingQueue.Push | dn/service-src/service_harbor.c:65-88 | the growing ring appends; growth keeps the order |
| GlobalNames.PendingQueue.Pop | dn/service-src/service_harbor.c:90-98 | the first message is taken |
| GlobalNames.PendingQueue.Dispatch | dn/service-src/service_harbor.c:349-378 | all messages, in order, go to the harbor or are dropped, and the queue is empty |
| HandleTable.ProbeCovers | dn/skynet-src/skynet_handle.c:39-42 | the probe visits every slot |
| HandleTable.NoFreeTurn | dn/skynet-src/skynet_handle.c:39-52 | the scan finds no slot if and only if all slots are full |
| HandleTable.CopySucceeds | dn/skynet-src/skynet_handle.c:56-60 | the assertion of the copy loop holds to the end if and only if no two handle fields give the same slot of the doubled table |
| HandleRegistrations.DoublingExact | dn/skynet-src/skynet_handle.c:54-63 | a full table doubles without collision and with every context in the slot of its handle if and only if every handle field that has not been written yet happens to give the right slot |
| HandleRegistrations.CollisionExact | dn/skynet-src/skynet_handle.c:57-58 | the copy loop fails if and only if the handle fields of two contexts meet, one of which has not been written |
| HandleRuns.TakeExact | dn/skynet-src/skynet_handle.c:35-54 | the locked region succeeds and keeps the table if and only if a slot is free, or the table can grow and no unwritten field gives a wrong slot |
| HandleRuns.PutKeeps | dn/skynet-src/skynet_handle.c:42-48 | the handle of a slot that is taken is one that no registered context has, in the range of the harbor |
| HandleRuns.StepKeeps | dn/skynet-src/skynet_handle.c:31-94 | allocation, the locked region, the later write of the field and retirement keep the table, any number of registrations being under way |
| HandleRuns.RunKeeps | dn/skynet-src/skynet_handle.c:31-94 | the same after any run of them in which the doublings are orderly |
| HandleRuns.FoundExact | dn/skynet-src/skynet_handle.c:116-133 | in every such run a context whose field is written is found under its handle and no other; one whose field is not yet written is found exactly when the stale field holds the handle looked for, in the right slot |
| HandleRuns.FoundLive | dn/skynet-src/skynet_handle.c:116-133 | nothing else is found; with no registration under way the answer is the context that is live under exactly that handle |
| HandleReuse.TakeAdvances | dn/skynet-src/skynet_handle.c:39-50 | a registration takes an index from the next one on, at most as far on as the table has slots, and moves the next index behind it |
| HandleReuse.WrapsLate | dn/skynet-src/skynet_handle.c:39-50 | the next index goes down only when the end of the index range is nearer than the table has slots |
| HandleReuse.NoEarlyReuse | dn/skynet-src/skynet_handle.c:31-94 | in every run in which the index has not gone round no handle is given twice, also not after it has been retired |
| HandleRecovery.StepScattered | dn/skynet-src/skynet_handle.c:31-94 | any step whose assertions hold, orderly or not, keeps every registered context in exactly one slot, with every written field the handle that was given |
| HandleRecovery.RunScattered | dn/skynet-src/skynet_handle.c:31-94 | the same after any run of them |
| HandleRecovery.FoundIffNotLost | dn/skynet-src/skynet_handle.c:116-133 | in such a table a context whose field is written is found under its handle if and only if it is in the slot of that handle |
| HandleRecovery.LostUntilDoubling | dn/skynet-src/skynet_handle.c:31-94 | a context in another slot is not found, whatever steps follow, as long as the table keeps its size |
| HandleRecovery.RecoveryExact | dn/skynet-src/skynet_handle.c:53-63 | a doubling makes it a proper table again, with every context in the slot of its handle, if and only if no two handles meet in the doubled table and no unwritten field gives a wrong slot |
| HandleRecovery.RecoveredFinds | dn/skynet-src/skynet_handle.c:116-133 | after such a doubling every context whose field is written is found under its handle |
| HandleRaces.LostByDoubling | dn/skynet-src/skynet_handle.c:46-60 | a context that a doubling has put into a wrong slot, because its field was not written, is in the wrong slot when the field has been written |
| HandleRaces.SecondRegistrationCollides | dn/skynet-src/skynet_handle.c:46-58 | a run of two registrations at once in which the assertion of the copy loop fails |
| HandleRaces.SecondRegistrationMisplaces | dn/skynet-src/skynet_handle.c:46-60 | a run of two registrations at once, in fresh memory, after which one context is not found until the table doubles again, whatever is done |
| HandleRaces.NextDoublingRecovers | dn/skynet-src/skynet_handle.c:46-63 | that run continued: the next doubling succeeds and the context is found again |
| HandleRegistrations.ReservedIndex | dn/skynet-src/skynet_handle.c:40-50 | the reserved index 0 is handed out if and only if the scan passes the end of the index range |
| HandleTable.LargestTable | dn/skynet-src/skynet_handle.c:53 | the asserted bound on the table size is reached only with 2^24 slots |
| HandleStore.HandleStorage.ScanSlots | dn/skynet-src/skynet_handle.c:38-42 | the loop finds the first turn with an empty slot |
| HandleStore.HandleStorage.CopySlots | dn/skynet-src/skynet_handle.c:54-60 | the loop computes the doubled table, or stops where its assertion fails |
| HandleStore.HandleStorage.LockedTake | dn/skynet-src/skynet_handle.c:35-54 | the locked region, with the handle field of the new context untouched; the table is sound afterwards if and only if the registration was orderly |
| HandleStore.HandleStorage.WriteField | dn/skynet-src/skynet_handle.c:46-50 | the field is written after the table has been unlocked |
| HandleStore.HandleStorage.Register | dn/skynet-src/skynet_handle.c:31-65 | without another registration under way: a handle of the harbor that no live context has, under which the context is then found, as all others are under theirs; refused only by a full table of 2^24 slots, and the copy loop never collides |
| HandleStore.HandleStorage.RetireHandle | dn/skynet-src/skynet_handle.c:67-79 | nothing is found under the handle any more and the context that was is not registered any more; every other handle finds what it found, and nothing else changes |
| HandleStore.HandleStorage.Grab | dn/skynet-src/skynet_handle.c:116-133 | finds by the slot and the handle field |
| HandleStore.RegisterAll | dn/skynet-src/skynet_handle.c:31-65 | contexts registered one after the other get different handles, through any number of doublings, and each is found under its own |
| NameIndex.LessTransitive | dn/skynet-src/skynet_handle.c:140-150 | the order of strcmp is transitive |
| NameIndex.OthersSorted | dn/skynet-src/skynet_handle.c:79-90 | compaction keeps the array strictly sorted |
| NameIndex.Names.Search | dn/skynet-src/skynet_handle.c:140-157 | bisection finds the name, or the place where it belongs |
| NameIndex.Names.Find | dn/skynet-src/skynet_handle.c:135-161 | the binary search answers as a map |
| NameIndex.Names.InsertBefore | dn/skynet-src/skynet_handle.c:165-188 | the entry is inserted before the given one, through growth as well |
| NameIndex.Names.Insert | dn/skynet-src/skynet_handle.c:190-212 | a new name is added and the array stays strictly sorted; a name that exists is refused |
| NameIndex.Names.Retire | dn/skynet-src/skynet_handle.c:79-90 | exactly the entries of the handle are gone, the others in their order |
| CoalescedMap.ChainGrows | dn/lua-protobuf/map.c:64-73 | inserting into a merged chain takes nothing off any chain, and the measure shows chains end |
| CoalescedMap.AtHomeIndexed | dn/lua-protobuf/map.c:58-63 | an item in its home slot keeps every item reachable from its home |
| CoalescedMap.BehindIndexed | dn/lua-protobuf/map.c:64-73 | an item in a free slot, linked behind the home slot, keeps every item reachable from its home |
| CoalescedMap.FindSlot | dn/lua-protobuf/map.c:86-103 | the walk from the home slot ends, and finds the key if and only if some slot has it |
| CoalescedMap.Query | dn/lua-protobuf/map.c:86-103 | the value of an item with the key, or none if there is no such item |
| CoalescedMap.AnswersMap | dn/lua-protobuf/map.c:86-103 | if no key has two values, that is the answer of the map |
| CoalescedMap.AnswersUnique | dn/lua-protobuf/map.c:86-103 | the items alone determine the answer for every key, whatever the slots and chains, if and only if no key has two values |
| CoalescedMap.ScanUp | dn/lua-protobuf/map.c:65-67 | the scan for a free slot stays in bounds |
| CoalescedMap.ScanRound | dn/lua-protobuf/map.c:285-288 | the circular scan finds a free slot other than the home slot |
| CoalescedMap.Build | dn/lua-protobuf/map.c:44-78 | the table with as many slots as items has exactly the items of the list, repeated keys or not; a key is in its home slot exactly if that was free when its first item came; otherwise its items are linked newest first |
| CoalescedMap.DatedAtHome | dn/lua-protobuf/map.c:58-63 | an item in its empty home slot is the first of its key, and keeps the order in time of the items of every key along their chain |
| CoalescedMap.DatedBehind | dn/lua-protobuf/map.c:64-73 | a displaced item is the newest of its key and the first behind the home slot: items of a key that is not in its home slot are linked newest first, and the oldest is in the home slot otherwise |
| CoalescedMap.HomedNext | dn/lua-protobuf/map.c:56-73 | whether the home slot has its key is decided when the first item of the key comes, and stays so |
| CoalescedMap.QueryBuilt | dn/lua-protobuf/map.c:86-103 | the walk answers with the last item of the key if the first one found its home slot taken, and with the first item otherwise, which the list alone decides |
| CoalescedMap.ListIsMap | dn/lua-protobuf/map.c:44-78 | the items of a list without repeated keys are a map |
| CoalescedMap.IpNew | dn/lua-protobuf/map.c:136-163 | the form is chosen by the numbers; the array has the last item of each number, the hash table all items |
| CoalescedMap.IpQuery | dn/lua-protobuf/map.c:210-231 | both forms answer for the items of the list; the array with the last item of the number, the hash table with the last or the first one, depending on whether the first was displaced; if no number repeats both give the answer of the map |
| CoalescedMap.AgreeExact | dn/lua-protobuf/map.c:105-231 | the answers of the two forms for a number are equal if and only if its first item is displaced from its home slot in the hash form, or its first and last values are equal |
| CoalescedMap.FormsAgree | dn/lua-protobuf/map.c:105-231 | for every list that the array form takes, and every number, the two forms are built and queried, and agree under exactly that condition |
| CoalescedMap.FormsDiffer | dn/lua-protobuf/map.c:105-163 | a family of lists for which they differ: the first and the last item have one number |
| CoalescedMap.DisplacedAgrees | dn/lua-protobuf/map.c:64-73 | a list with two values of one number for which they agree, because the first item is displaced |
| CoalescedMap.SpMap.PlaceNew | dn/lua-protobuf/map.c:274-298 | one item more |
| CoalescedMap.SpMap.Rehash | dn/lua-protobuf/map.c:303-319 | all items, in a table twice as large |
| CoalescedMap.SpMap.SpInsert | dn/lua-protobuf/map.c:274-301 | one item more, rehashing when full, whether or not the key is there |
| CoalescedMap.SpMap.SpQueryInsert | dn/lua-protobuf/map.c:321-362 | a slot of the key, which is new only if no item has it; all items stay |
| CoalescedMap.SpMap.SpQuery | dn/lua-protobuf/map.c:376-394 | the value of an item with the key, or none if there is no such item |
| CoalescedMap.FullList | dn/lua-protobuf/map.c:311-315 | a full table is the list of its items, so rehashing by index loses none |

## Left out

- Socket, epoll, kqueue and file handling, the Lua, MySQL and dynamic-library glue, the digests and the protobuf wire format: no hard state.
- Timer: delays below 1, times from 2^31 on, the wall clock and `starttime`; the number of elapsed ticks is a parameter. Each locked region is one step.
- Scheduler: in the runs `skynet_mq_mark_release` is one atomic step although the code takes no lock there (SchedulerRuns.BetweenTheHalves has its two accesses); at most one lock with a non-zero session is made in a dispatch; the memory of a context is not modelled beyond its reference count, so neither is the write of `ctx->init` after the release by a failing init; handles are not reused; creation registers the handle, writes it and makes the queue in one step (HandleRuns has the two steps of the registration), and the global queue is one sequence (GlobalRing has its accesses).
- GlobalRing and RwLock: memory is sequentially consistent. A pop spins by starting again, and progress is not stated.
- GlobalRing.RunKeeps: states nothing for runs with more than 0x10000 tickets from the oldest unfinished pop to the tail; GlobalRing.UnharmedRunExact covers those in which no access does harm, and the others leave the relation.
- Page runs: the flag for untouched pages and the zeroing it saves, purging of dirty pages, statistics, the release of the arena lock while a chunk is fetched; the bin of a small run is read from the map instead of the run header; trees are sets of keys, so their balancing is not modelled.
- PageRuns.Arena.Palloc: alignments are any positive number of pages and rounding is arithmetic, which for powers of two is the mask of the source.
- Chunk extents: addresses and sizes are counted in chunks; the two pool locks and the moment between the two locked regions of a split are one region; allocation failures of nodes are parameters.
- Cuckoo hash: the initial size computed from the expected number of items is a parameter, as is the number of table allocations that succeed; termination of evictions depends on the random numbers, which are a finite sequence, and an insertion that uses them up is unfinished and nothing is said of it; iteration and deletion of the whole table.
- Gate buffer: reading from the socket, the states of a connection; a client that is given up has no further effect on the buffer.
- Lua serializer: the Lua stack is a value, the order of `lua_next` is that of the given pairs, light user data are eight bytes; an array size sent as a double is an error; a double zero with negative sign is packed as the integer 0 by the source and is not a Double of the model; reading across a chain of blocks, which no caller of the reader uses, is not modelled.
- Multicast: the array growth of the request queues is a sequence append; delivery and reference counts of group messages; `qsort` is an insertion sort by the same comparator.
- Global names: connections do not fail once they are there, except the one the master closes on a request for an address; the empty address it then passes on to harbors that join later is not modelled; handles of harbor 0, on which an assertion of the harbors fails, are not registered; messages to a handle instead of a name; name chains in the hash are maps; addresses are only recorded as connections that come up.
- Handle table: what is done under the read-write lock is one region (RwLock shows that it excludes), while the handle field of a new context is written outside it, as one later step; the memory of a context that is retired while it is registered is not modelled beyond its field; retiring all handles is the repetition of retiring one.
- Coalesced maps: combining two number maps, iteration, and the string hash itself, which is any function; a string hash of zero, on which the source compares a null key, is not excluded because the model has no null key.
