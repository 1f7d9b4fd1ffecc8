# A model of the runtime under xserver

The repository runs game services on skynet, an actor runtime in C, with Lua 5.3.4 and cjson inside it. This project
models the parts of that C code whose correctness is hardest to see, and proves what they are for. Every file is one
component:

- `Timer.dfy`: the hierarchical timer wheel. It is proved to be an index over a plain list of deadlines, so that a timer
  fires on exactly the tick it was asked for, once, in order, over any wrap of the 32-bit clock.
- `MessageQueue.dfy`: the doubling ring of a service and the linked run queue. `Scheduler.dfy`: the protocol over them,
  as a state machine whose steps are the locked sections that services, workers and retiring threads execute in any
  interleaving.
- `Collector.dfy`: the incremental tri-colour collector of Lua over an abstract heap graph, with a mutator that runs
  between any two steps, and a full collection proved to leave exactly what is reachable.
- `Bignum.dfy` and `Decimal.dfy`: the base-2^32 arithmetic of `dtoa.c` and its correctly rounded digit loop.
- `SocketWriter.dfy`: the two-priority write buffer of a TCP socket, against a wire that may answer anything.
- `DiffieHellman.dfy`, `Des.dfy`, `Sha1.dfy`: key exchange, cipher and hash of the script library.
- `ShareData.dfy`, `Seri.dfy`, `NetPack.dfy`, `Gate.dfy`: the frozen hash table, the serializer and the two stream
  framers.
- `Handles.dfy`, `Stm.dfy`: service handles and names; the spin lock, and the shared copies behind it with what readers
  see of them.
- `Arith.dfy`, `Options.dfy`, `Ring.dfy`: shared arithmetic, the option type, and the facts about rings that the message
  queues and the packet queue share.

Code that changes things in place is a class or a method over arrays, with loops and invariants, proved against a
function or a plain sequence; concurrent code is a state machine with an invariant over all its runs.

Where the code does less than its surroundings suggest, the model follows the code:

- `powmodp` reduces its base only above the modulus, so the modulus to the first power is returned unreduced
  (`DiffieHellman.PowerMod` gives the exact condition).
- The hash counts a chunk of 2^29 bytes or more wrongly unless it happens to carry (`Sha1.HighExact`,
  `Sha1.CountsRight`, `Sha1.LongChunkMiscounted`).
- The gate leaves a frame's body in the buffer when it has no receiver (`Gate.OutOfStep`, `Gate.ReadsUnheard`); with one,
  `Gate.ReadsPlain` gives the exact condition.
- The atomic step asserts (`lgc.c:986`) that no ephemeron table is listed. `Collector.ListedTooSoon` is a run in which
  one is: a forward barrier marks a table between the end of propagation and the atomic step.
  `Collector.GlobalState.EmptyGray` says when the assertion holds and when it fails. No condition on the objects and
  their colours alone is exact: `Collector.OrderDecides` has two runs that differ only in the order of two stores, and
  the assertion fails in one of them.
  The marking invariant does not depend on the assertion.
- The creation of a service gives up its reference and then stores to the context, logs it and returns it. A thread that
  retires the handle in between frees the context first (`Scheduler.StoreAfterFree`); `Scheduler.RunSafe` and
  `Scheduler.TouchSafe` say exactly when these uses are safe, and that nothing else is unsafe.
- A four-byte string length of 2^31 or more in a packed stream becomes negative and moves the read cursor out of the
  buffer (`Seri.LongLeaves`, `Seri.LeavesBuffer`), and packing counts its bytes in an `int` (`Seri.PackValues`).
- A socket made by binding takes packets but never waits to write them, so no write event ends its orderly close
  (`SocketWriter.StuckHalfClosed`).
- The search for the padding of a decrypted text compares a signed index with an unsigned bound, so for a text of one
  block that decrypts to zeros it runs off the front of the buffer (`Des.Decode` gives the exact condition,
  `Des.ZerosLeave` such a text for every key).
- A connection whose lists have been emptied keeps its write event for one more call, since the event goes off only when
  both lists are found empty.

## Model

| member | source | states |
|---|---|---|
| Timer.Wheel.Run | skynet/skynet-src/skynet_timer.c:171-184 | for every interleaving of additions and ticks, over any wrap of the 32-bit clock, tick k dispatches exactly the timers of the plain list that are due on it, in the order they were asked for, with requests made during a dispatch included |
| Timer.Wheel.TimerUpdate | skynet/skynet-src/skynet_timer.c:171-184 | the first execute of a tick finds nothing, the second dispatches exactly what is due on the new tick; the wheel again indexes the plain list |
| Timer.Wheel.TimerExecute | skynet/skynet-src/skynet_timer.c:158-169 | drains the current near slot, in list order, and leaves the index that the clock asks for; a request made while the lock is free cannot land in the slot being drained |
| Timer.Wheel.Dispatched | skynet/skynet-src/skynet_timer.c:140-156 | what other threads add while a list is dispatched never lands in the current near slot |
| Timer.Wheel.TimerShift | skynet/skynet-src/skynet_timer.c:117-138 | after the clock advances and at most one list is brought down, every pending node is in the slot `add_node` would pick at the new time |
| Timer.Wheel.BringDown | skynet/skynet-src/skynet_timer.c:117-138 | the level loop stops by level 3 and moves exactly the list that the tick calls for, or none |
| Timer.Wheel.MoveList | skynet/skynet-src/skynet_timer.c:107-115 | the list is emptied first and each of its nodes linked again at the end of its new slot, in order |
| Timer.Wheel.AddNode | skynet/skynet-src/skynet_timer.c:73-92 | a node goes to the end of the slot chosen by its word and the clock's word |
| Timer.Wheel.TimerAdd | skynet/skynet-src/skynet_timer.c:94-105 | adds (now + delay, event) to the plain list, for every delay from 1 to 2^31 - 1 |
| Timer.Wheel.Timeout | skynet/skynet-src/skynet_timer.c:210-230 | a delay of zero or less sends a message at once and touches no list; otherwise the timer is added |
| Timer.Wheel.LinkClear | skynet/skynet-src/skynet_timer.c:57-64 | hands over a near slot whole and leaves it empty |
| Timer.Wheel.Link | skynet/skynet-src/skynet_timer.c:66-71 | appends to one slot and leaves every other list alone |
| Timer.Wheel.constructor | skynet/skynet-src/skynet_timer.c:186-208 | an empty wheel at time zero indexes the empty list |
| Timer.OrLowIs | skynet/skynet-src/skynet_timer.c:73-92 | a word with its low bits set |
| Timer.CurrentSlot | skynet/skynet-src/skynet_timer.c:73-92 | a pending timer is in the current near slot if and only if it is due now |
| Timer.TickDeadline | skynet/skynet-src/skynet_timer.c:117-138 | on a tick a timer's slot changes if and only if it is in the one list that the tick brings down |
| Timer.TargetDeadline | skynet/skynet-src/skynet_timer.c:117-138 | a list brought down lands in lists that are empty of every other pending timer |
| Timer.IndexShift | skynet/skynet-src/skynet_timer.c:117-138 | bringing down one list turns the index for one time into the index for the next |
| Timer.DueNow | skynet/skynet-src/skynet_timer.c:158-169 | the current near slot holds what is due now, in insertion order |
| Timer.CurrentEmpty | skynet/skynet-src/skynet_timer.c:158-169 | after execute the current near slot is empty |
| Timer.DuePosition | skynet/skynet-src/skynet_timer.c:140-156 | every timer asked for has its own place in the dispatch of its deadline |
| Timer.DueOrder | skynet/skynet-src/skynet_timer.c:140-156 | equal deadlines fire in insertion order |
| Timer.Conserved | skynet/skynet-src/skynet_timer.c:171-184 | by any tick as many timers have fired as were due: none is lost and none fires twice |
| MessageQueue.Queue.constructor | skynet/skynet-src/skynet_mq.c:77-96 | an empty ring of 64 places, created as if it were already in the run queue |
| MessageQueue.Queue.Length | skynet/skynet-src/skynet_mq.c:111-125 | the number of messages, across the wrap of the ring |
| MessageQueue.Queue.Pop | skynet/skynet-src/skynet_mq.c:137-172 | takes the oldest message; an empty queue leaves the run queue's flag down and its threshold reset; the threshold becomes the first doubling of itself that the length does not exceed |
| MessageQueue.Queue.Expand | skynet/skynet-src/skynet_mq.c:174-187 | a ring of twice the size holds the same messages in order |
| MessageQueue.Queue.Put | skynet/skynet-src/skynet_mq.c:189-209 | appends one message, growing the ring exactly when it has become full |
| MessageQueue.Push | skynet/skynet-src/skynet_mq.c:189-209 | appends the message and links the queue if and only if its flag was down |
| MessageQueue.MarkRelease | skynet/skynet-src/skynet_mq.c:219-228 | raises the release flag and links the queue if and only if it was not already in the run queue |
| MessageQueue.DropQueue | skynet/skynet-src/skynet_mq.c:230-237 | drops every message, in order, and leaves the queue empty |
| MessageQueue.Release | skynet/skynet-src/skynet_mq.c:239-250 | a queue marked for release is drained and stays out; any other is linked again with its messages |
| MessageQueue.RunQueue.constructor | skynet/skynet-src/skynet_mq.c:211-217 | an empty run queue |
| MessageQueue.RunQueue.Push | skynet/skynet-src/skynet_mq.c:43-56 | the linked list gains the queue at its tail; the assertion on its link holds |
| MessageQueue.RunQueue.Pop | skynet/skynet-src/skynet_mq.c:58-75 | the linked list loses its head, whose link is cleared |
| Ring.PutRing | skynet/skynet-src/skynet_mq.c:189-209 | a write at the tail is an append to the live part of the ring |
| Ring.FullRing | skynet/skynet-src/skynet_mq.c:174-187 | when head meets tail, the live part is the whole ring read from the head |
| Ring.LiveFirst | skynet/skynet-src/skynet_mq.c:137-172 | taking the first is stepping the head, across the wrap |
| Ring.LiveLength | skynet/skynet-src/skynet_mq.c:111-125 | the number of messages, and when one more fills the ring |
| Scheduler.RunKeeps | skynet/skynet-src/skynet_server.c:296-351 | every state of every run of creations, sends, retirements and worker steps satisfies the invariant: a live queue is idle, linked once, or held by one worker or its creator; references equal the frames that hold them; a service that can be found without its flag is still in the hands of its creation |
| Scheduler.StepKeeps | skynet/skynet-src/skynet_server.c:296-351 | every enabled step of every thread keeps the invariant |
| Scheduler.StartOk | skynet/skynet-src/skynet_server.c:792-803 | the state before any service exists satisfies it |
| Scheduler.OneWorker | skynet/skynet-src/skynet_server.c:296-351 | no two frames hold the same queue, so no two workers dispatch one service at once |
| Scheduler.NoLostWakeup | skynet/skynet-src/skynet_mq.c:137-209 | a queue with messages that is not being released is linked once or held by one frame |
| Scheduler.FreedQueue | skynet/skynet-src/skynet_mq.c:98-104 | a freed queue has no context, no handle, no place in the run queue and no holder, and all that was pushed to it has left it, in order |
| Scheduler.FrameKnown | skynet/skynet-src/skynet_server.c:208-227 | whatever a frame is about to touch still exists |
| Scheduler.StepSafe | skynet/skynet-src/skynet_server.c:208-227 | the assertions on links, on the release flag and on the init flag hold, and no step touches a freed queue or a freed context or frees anything twice, if and only if the step is not the late use of a context by its creation: after the handle was retired and with no reference held |
| Scheduler.WorkerSafe | skynet/skynet-src/skynet_server.c:296-351 | every move of a worker in `skynet_context_message_dispatch` is safe, and a message is popped only for a context whose init flag is up |
| Scheduler.CallerSafe | skynet/skynet-src/skynet_server.c:220-239 | so is every move of senders, holders, deleting and retiring threads, and of a creation while it has its reference or its queue |
| Scheduler.RunSafe | skynet/skynet-src/skynet_server.c:296-351 | in every run a step is safe if and only if it is not such a late use |
| Scheduler.TouchSafe | skynet/skynet-src/skynet_server.c:164-172 | a context is alive if and only if its handle is in the table or a frame holds a reference, and its memory is freed if and only if the deletion after that is through |
| Scheduler.StoreAfterFree | skynet/skynet-src/skynet_server.c:164-166 | a run in which a creation stores to a context that has been freed: the handle is retired between the release and the store |
| Scheduler.RunReady | skynet/skynet-src/skynet_server.c:260-262 | in every run a message is dispatched only to a context whose init flag is up |
| Scheduler.LookupReady | skynet/skynet-src/skynet_server.c:304-311 | a worker that finds the context of its queue finds the flag up, since only the creation first links the queue |
| Scheduler.StepReady | skynet/skynet-src/skynet_server.c:164-168 | every step keeps that: a creation gets ready only by raising the flag, or when its handle can no longer be found |
| Scheduler.SetInitAt | skynet/skynet-src/skynet_server.c:164-167 | the store keeps the invariant at every handle, also when it comes too late |
| Scheduler.RunFifo | skynet/skynet-src/skynet_server.c:229-239 | a message pushed as the k-th is, for ever after, either the k-th to have left its queue or still waiting at the place that follows from it |
| Scheduler.RunGrows | skynet/skynet-src/skynet_server.c:316-338 | the histories of pushed and departed messages only grow |
| Scheduler.StepQueue | skynet/skynet-src/skynet_mq.c:43-75 | every step leaves the run queue as it was less at most its first, which goes to the worker that asked, plus at most one at the end |
| Scheduler.RunTurn | skynet/skynet-src/skynet_mq.c:58-75 | in every run a queue at place k of the run queue stands nearer the front by one for each queue taken, until it is taken |
| Scheduler.RunServed | skynet/skynet-src/skynet_mq.c:58-75 | the queue at place k is in the hand of the worker of the (k+1)-th taking step from there, be it idle or done with another queue |
| Scheduler.StepHeld | skynet/skynet-src/skynet_server.c:304-351 | a queue in hand stays there until the worker looks its context up, and is then served if and only if the context is found |
| Scheduler.RunHeld | skynet/skynet-src/skynet_server.c:304-351 | so over any stretch of a run |
| Scheduler.ServeOldest | skynet/skynet-src/skynet_server.c:316-351 | a worker that serves a queue takes its oldest message, and leaves the queue only when there is none |
| Scheduler.RunServes | skynet/skynet-src/skynet_server.c:296-351 | in every run a listed queue gets its turn in order, and the worker whose turn it is dispatches the oldest message of it if its context is still there |
| Scheduler.NoneStuck | skynet/skynet-src/skynet_server.c:296-351 | from every state of every run each call in progress has a next step, but for a worker with nothing listed; threads may begin anything at any time |
| Scheduler.RunStored | skynet/skynet-src/skynet_server.c:164-166 | in every run the init flag of a context is up only if its creation has stored it |
| Scheduler.StepGrows | skynet/skynet-src/skynet_server.c:316-338 | one step appends to them at most |
| Scheduler.DropReplies | skynet/skynet-src/skynet_server.c:115-123 | in every run the errors begun for a service (its own handle as source, session zero, no data, the error flag up) are, in order, to the sources of the messages dropped with it: each dropped message is answered once, and nothing else is |
| Scheduler.RunDelivers | skynet/skynet-src/skynet_server.c:229-239 | a send, a reply among them, is for ever after on its way, or pushed to its destination, or its own lookup found no such service |
| Scheduler.RunSent | skynet/skynet-src/skynet_server.c:229-239 | so is every message that a thread begins to send |
| Scheduler.RunPushed | skynet/skynet-src/skynet_mq.c:189-209 | in every run a service has received exactly the messages of the sends that got through, each once and in the order of their pushes |
| Scheduler.StepReplies | skynet/skynet-src/skynet_server.c:115-123 | one step adds to the replies exactly what it adds to the messages dropped |
| Scheduler.ServePopAt | skynet/skynet-src/skynet_server.c:316-338 | popping a message to dispatch keeps the invariant at every handle |
| Scheduler.PushAt | skynet/skynet-src/skynet_mq.c:189-209 | so does a push, whether or not it links the queue |
| Scheduler.LookupAt | skynet/skynet-src/skynet_server.c:304-311 | so does the worker that finds no context for a popped queue |
| Scheduler.MarkReleaseAt | skynet/skynet-src/skynet_server.c:208-218 | so does the last release of a context, between marking its queue and freeing it |
| Scheduler.DrainAt | skynet/skynet-src/skynet_mq.c:230-237 | so does each message that is dropped |
| Scheduler.RetireAt | skynet/skynet-src/skynet_handle.c:69-106 | so does retiring a handle |
| Scheduler.NewServiceAt | skynet/skynet-src/skynet_server.c:154-158 | so does the creation of a context that is published before its queue is linked |
| Collector.GlobalState.FullCollection | 3rd/lua-5.3.4/src/lgc.c:1158-1174 | from any state between two steps, a full collection ends and leaves exactly the objects that the roots keep alive, each whole but for weak entries whose keys are unreachable |
| Collector.GlobalState.RunUntil | 3rd/lua-5.3.4/src/lgc.c:1103-1107 | running to a later state terminates, loses nothing reachable, and keeps a tight cycle tight |
| Collector.GlobalState.SingleStep | 3rd/lua-5.3.4/src/lgc.c:1044-1096 | every step keeps the whole invariant, frees nothing the roots reach, lets a reachable table lose only entries with unreachable keys, and brings the end of the cycle nearer |
| Collector.GlobalState.AbandonCycle | 3rd/lua-5.3.4/src/lgc.c:1158-1174 | giving up a marking phase starts a sweep that frees nothing |
| Collector.GlobalState.AtomicPhase | 3rd/lua-5.3.4/src/lgc.c:981-1025 | at the flip of the white the marked set is exactly what the roots and the objects marked before keep alive, is closed under the ephemeron rule, and after clearing refers only to itself |
| Collector.GlobalState.AtomicMark | 3rd/lua-5.3.4/src/lgc.c:981-1013 | nothing is left to visit, every ephemeron table has converged and every root is marked, although stacks and roots are written without barriers; it begins with `EmptyGray` |
| Collector.GlobalState.EmptyGray | 3rd/lua-5.3.4/src/lgc.c:1061-1064 | the assertion that no ephemeron table is listed: it holds whenever nothing waits in the gray list, or no table that may be visited has an entry with both ends white but such whose keys the first in the list refers to; it fails if a table in the gray list has an entry neither end of which the marked objects keep alive, or the first in the list is a table that comes at once to an entry with both ends white |
| Collector.ListedTooSoon | 3rd/lua-5.3.4/src/lgc.c:981-986 | a run from a new state in which the assertion fails: a table stored in a black closure after propagation ended |
| Collector.OrderDecides | 3rd/lua-5.3.4/src/lgc.c:981-986 | from two states with the same objects in the same colours, and the gray list in opposite orders, the assertion fails in one run and holds in the other |
| Collector.TwoOrders | 3rd/lua-5.3.4/src/lgc.c:155-164 | two such states, each reached from a new one, by runs that differ in the order of two stores |
| Collector.TableFirst | 3rd/lua-5.3.4/src/lgc.c:559-605 | the table in front of the closure that refers to its key is filed |
| Collector.ClosureFirst | 3rd/lua-5.3.4/src/lgc.c:559-605 | behind it, in the same state otherwise, it is not |
| Collector.PairMade | 3rd/lua-5.3.4/src/lgc.c:1044-1068 | the common beginning, from a new state |
| Collector.BlackClosure | 3rd/lua-5.3.4/src/lgc.c:1053-1060 | the part of that run up to the end of propagation |
| Collector.MakePair | 3rd/lua-5.3.4/src/lgc.c:208-216 | the key, the value and the table made before the atomic step, all white |
| Collector.StorePair | 3rd/lua-5.3.4/src/lgc.c:155-164 | the forward barrier puts the table into the gray list |
| Collector.PairStuck | 3rd/lua-5.3.4/src/lgc.c:394-430 | what is marked then keeps neither end of the entry alive |
| Collector.OneVisit | 3rd/lua-5.3.4/src/lgc.c:559-600 | what one visit does to the two conditions |
| Collector.ClosureBlack | 3rd/lua-5.3.4/src/lgc.h:14-25 | a marked closure that does not wait in the gray list is black |
| Collector.GlobalState.MarkAfresh | 3rd/lua-5.3.4/src/lgc.c:337-344 | from a state with nothing marked, only what the roots keep alive is |
| Collector.GlobalState.VisitSaved | 3rd/lua-5.3.4/src/lgc.c:996-1013 | the saved list and the ephemeron tables are exhausted |
| Collector.GlobalState.AtomicStep | 3rd/lua-5.3.4/src/lgc.c:1061-1068 | the atomic step and the sweep it starts lose nothing reachable |
| Collector.GlobalState.ConvergeEphemerons | 3rd/lua-5.3.4/src/lgc.c:608-623 | terminates with every table in the list converged |
| Collector.GlobalState.ConvergeRound | 3rd/lua-5.3.4/src/lgc.c:608-623 | one round either marks something new or finds every table converged |
| Collector.GlobalState.PropagateAll | 3rd/lua-5.3.4/src/lgc.c:603-605 | empties the gray list and keeps the marking invariant; files no ephemeron table if none that may be visited has an entry with both ends white, and files every listed table with an entry that it cannot mark at either end |
| Collector.GlobalState.PropagateMark | 3rd/lua-5.3.4/src/lgc.c:559-600 | blackens one object and visits it; fewer whites, or as many and a shorter gray list; a table is filed only if it had an entry with both ends white |
| Collector.GlobalState.PropagateStep | 3rd/lua-5.3.4/src/lgc.c:1053-1060 | marks only what marked objects keep alive; the phase ends with the gray list |
| Collector.GlobalState.ReallyMark | 3rd/lua-5.3.4/src/lgc.c:235-283 | a white object becomes black with its references marked, or gray and waiting, and marking never leaves a closed set |
| Collector.GlobalState.IsCleared | 3rd/lua-5.3.4/src/lgc.c:139-146 | strings are marked and never cleared; any other key is cleared if and only if white |
| Collector.GlobalState.TraverseEphemeron | 3rd/lua-5.3.4/src/lgc.c:394-430 | marks the array part and the values of entries with marked keys, and files the table in the list that its remaining entries call for |
| Collector.GlobalState.TraverseEntry | 3rd/lua-5.3.4/src/lgc.c:410-420 | a value is marked if its key is; what a white key leaves undone is reported |
| Collector.GlobalState.TraverseEntries | 3rd/lua-5.3.4/src/lgc.c:408-421 | the same for all entries of a table |
| Collector.GlobalState.LinkWeak | 3rd/lua-5.3.4/src/lgc.c:423-429 | the table goes to the gray-again, ephemeron or all-weak list, or to none, as its entries require |
| Collector.GlobalState.TraverseWeak | 3rd/lua-5.3.4/src/lgc.c:451-471 | an ephemeron table turns gray again unless it needs no second visit |
| Collector.GlobalState.TraverseStrong | 3rd/lua-5.3.4/src/lgc.c:433-448 | every reference of a strong object is marked |
| Collector.GlobalState.TraverseThread | 3rd/lua-5.3.4/src/lgc.c:530-552 | a thread is never left black: it is visited and saved for the atomic phase, or visited in it |
| Collector.GlobalState.ClearKeys | 3rd/lua-5.3.4/src/lgc.c:639-650 | exactly the entries with white keys leave the listed tables; nothing is marked by it |
| Collector.GlobalState.ClearTable | 3rd/lua-5.3.4/src/lgc.c:639-650 | the same for one table |
| Collector.GlobalState.RestartCollection | 3rd/lua-5.3.4/src/lgc.c:337-344 | a cycle starts with only objects that the roots keep alive marked |
| Collector.GlobalState.MarkRoots | 3rd/lua-5.3.4/src/lgc.c:337-344 | the running thread and every global root are marked |
| Collector.GlobalState.SweepList | 3rd/lua-5.3.4/src/lgc.c:734-751 | of the next objects of the list exactly the dead are freed and the others take the current white |
| Collector.GlobalState.SweepStep | 3rd/lua-5.3.4/src/lgc.c:1027-1041 | a piece of the sweep loses nothing reachable |
| Collector.GlobalState.EnterSweep | 3rd/lua-5.3.4/src/lgc.c:958-963 | the list is taken from its start and its first object swept at once |
| Collector.GlobalState.constructor | 3rd/lua-5.3.4/src/lgc.c:337-344 | a state with only its main thread satisfies the invariant |
| Collector.GlobalState.NewObject | 3rd/lua-5.3.4/src/lgc.c:208-216 | a new object takes the current white and joins the list where the sweep does not lose it; no other colour changes |
| Collector.GlobalState.StoreBack | 3rd/lua-5.3.4/src/lgc.c:171-176 | storing into a table keeps the invariant, the backward barrier making a black one gray again |
| Collector.GlobalState.StoreForward | 3rd/lua-5.3.4/src/lgc.c:155-164 | storing into a closure, a userdata or a table keeps the invariant, the forward barrier marking the value or whitening the object |
| Collector.GlobalState.SetStack | 3rd/lua-5.3.4/src/lgc.c:530-552 | writing a stack keeps the invariant without a barrier |
| Collector.GlobalState.SetRoots | 3rd/lua-5.3.4/src/lgc.c:337-344 | so does changing the running thread or the global roots |
| Collector.GlobalState.ChangeMode | 3rd/lua-5.3.4/src/lgc.c:451-471 | so does making a table weak or strong again |
| Collector.GlobalState.TriColour | 3rd/lua-5.3.4/src/lgc.h:14-25 | while the invariant is to be kept no black object refers to a white one, and every gray object waits in a list |
| Collector.BlackAllMarked | 3rd/lua-5.3.4/src/lgc.h:14-25 | a black object is no thread and refers to no white object, not even weakly |
| Collector.MarkedClosed | 3rd/lua-5.3.4/src/lgc.c:981-1025 | when marking is finished the marked set is closed under strong references and the ephemeron rule |
| Collector.ClearedClosed | 3rd/lua-5.3.4/src/lgc.c:981-1025 | after clearing, marked objects refer to marked objects only |
| Collector.Flipped | 3rd/lua-5.3.4/src/lgc.c:981-1025 | the flip of the white makes exactly the unmarked objects dead |
| Collector.MarkedExactly | 3rd/lua-5.3.4/src/lgc.c:981-1025 | marking that stays inside what a set keeps alive, and ends closed, ends exactly there |
| Collector.KeptClosed | 3rd/lua-5.3.4/src/lgc.c:394-430 | what a set of objects keeps alive is itself closed, so it is the least such set |
| Collector.CollectedSafely | 3rd/lua-5.3.4/src/lgc.c:981-1025 | clearing and the first sweep lose nothing the roots reach |
| Collector.SweptSafely | 3rd/lua-5.3.4/src/lgc.c:734-751 | nor does any later piece of the sweep |
| Collector.AccessibleLive | 3rd/lua-5.3.4/src/lgc.c:734-751 | whatever the mutator can get hold of, weak keys included, is in the heap and not dead |
| Collector.StillReachable | 3rd/lua-5.3.4/src/lgc.c:1044-1096 | what is reachable before a lossless step is reachable after it |
| Collector.SameKept | 3rd/lua-5.3.4/src/lgc.c:734-751 | freeing unreachable objects does not change what is reachable |
| Bignum.Bigint.constructor | 3rd/cjson/dtoa.c:544-583 | a block of 2^k words |
| Bignum.FromWord | 3rd/cjson/dtoa.c:789-803 | a number of one word |
| Bignum.MultAdd | 3rd/cjson/dtoa.c:612-667 | exactly b * m + a, in place or in a block twice the size |
| Bignum.Mult | 3rd/cjson/dtoa.c:805-913 | exactly the product, inside the block it allocates, without zero words on top; two numbers without words give another |
| Bignum.MultOrdered | 3rd/cjson/dtoa.c:831-913 | the same once the longer factor comes first |
| Bignum.AddRows | 3rd/cjson/dtoa.c:842-859 | all rows of the schoolbook product |
| Bignum.AddRow | 3rd/cjson/dtoa.c:847-858 | one row, whose sums never exceed 64 bits |
| Bignum.Powers.Pow5Mult | 3rd/cjson/dtoa.c:917-972 | exactly b * 5^e, with the chain of powers only ever extended |
| Bignum.Powers.MultPowers | 3rd/cjson/dtoa.c:948-971 | one power of the chain for each bit of the exponent |
| Bignum.Powers.Entry | 3rd/cjson/dtoa.c:934-969 | the i-th power is found, or made from the one before it |
| Bignum.Powers.constructor | 3rd/cjson/dtoa.c:915-917 | an empty chain |
| Bignum.LinkPower | 3rd/cjson/dtoa.c:917-972 | the i-th entry of the chain is 5^(4 * 2^i) |
| Bignum.LShift | 3rd/cjson/dtoa.c:974-1032 | exactly b * 2^k, in a block that holds it |
| Bignum.ShiftInto | 3rd/cjson/dtoa.c:996-1028 | the shifted words lie above k / 32 words left alone |
| Bignum.ShiftWords | 3rd/cjson/dtoa.c:1002-1009 | a shift within words, with the bits shifted out |
| Bignum.Cmp | 3rd/cjson/dtoa.c:1034-1066 | the sign of the difference |
| Bignum.Diff | 3rd/cjson/dtoa.c:1068-1160 | the absolute difference, with the sign of a - b |
| Bignum.DiffOrdered | 3rd/cjson/dtoa.c:1103-1160 | a - b for the larger first, without zero words on top |
| Bignum.SubWords | 3rd/cjson/dtoa.c:1112-1124 | the two borrow loops, in 64-bit arithmetic that wraps around |
| Decimal.QuoRem | 3rd/cjson/dtoa.c:2119-2241 | quotient and remainder, exactly, for every divisor whose top word is at least 2^27 - the range scaling to four leading zero bits gives - and every dividend of no more words |
| Decimal.QuoTop | 3rd/cjson/dtoa.c:2149-2197 | the quotient estimated from the top words leaves less than twice the divisor |
| Decimal.SubTop | 3rd/cjson/dtoa.c:2160-2197 | one multiply-and-subtract pass, and the zero words dropped |
| Decimal.SubMul | 3rd/cjson/dtoa.c:2163-2190 | takes q times the divisor off, in 64-bit arithmetic that wraps around |
| Decimal.DropTop | 3rd/cjson/dtoa.c:2191-2196 | the value stays and no zero word is left on top |
| Decimal.Estimate | 3rd/cjson/dtoa.c:2149-2149 | the estimate from the top words is the quotient or one less |
| Decimal.FitsDivisor | 3rd/cjson/dtoa.c:2139-2144 | a dividend below ten times the divisor has no more words than it |
| Decimal.GenerateDigits | 3rd/cjson/dtoa.c:4285-4296 | the digits so far and the remainder make up the dividend; fewer than `ilim` digits only if the division came out even |
| Decimal.FixedDigits | 3rd/cjson/dtoa.c:4285-4329 | the digits are the quotient rounded to `ilim` places, ties to the even digit, trailing zeros suppressed, a carry out of the top going into the exponent |
| Decimal.RoundUp | 3rd/cjson/dtoa.c:4314-4322 | one unit in the last place is added, the nines it passes are dropped, and a carry out of the top leaves a one in the next place up |
| Decimal.TrimZeros | 3rd/cjson/dtoa.c:4323-4329 | only trailing zeros go |
| Decimal.Exact | 3rd/cjson/dtoa.c:4286-4292 | an exact quotient is its own rounding |
| Decimal.Inexact | 3rd/cjson/dtoa.c:4306-4311 | doubling the remainder and comparing decides the rounding, ties by the parity of the last digit |
| SocketWriter.Socket.constructor | skynet/skynet-src/socket_server.c:376-397 | a new socket has empty lists and nothing unsent |
| SocketWriter.Socket.Send | skynet/skynet-src/socket_server.c:692-761 | a packet is taken if and only if the socket is connecting, connected or bound; it goes straight to the wire if that is connected and nothing waits, else to the end of the list of its priority; any other socket is left alone |
| SocketWriter.Socket.SendDirect | skynet/skynet-src/socket_server.c:709-729 | what the wire does not take at once becomes the only member of the high list, whatever the priority; any error but a retry closes the socket |
| SocketWriter.Socket.TakeDirect | skynet/skynet-src/socket_server.c:725-729 | when the wire has taken some bytes of the packet, the rest and no other is in the high list with the write event on |
| SocketWriter.Socket.Append | skynet/skynet-src/socket_server.c:640-678 | the packet joins the end of the list of its priority and its bytes are counted |
| SocketWriter.Socket.SendBuffer | skynet/skynet-src/socket_server.c:609-638 | both assertions hold; low packets move only once the high list is empty; a low packet begun becomes the head of the high list; the write event goes off exactly when both lists are found empty, and a half-closed socket then closes |
| SocketWriter.Socket.SendList | skynet/skynet-src/socket_server.c:475-505 | whole packets leave from the front of one list, all of them if the wire takes all it is offered, and an error closes the socket |
| SocketWriter.Socket.SendFirst | skynet/skynet-src/socket_server.c:478-500 | the first buffer is written as far as the wire takes it; the line of all packets taken stays the same |
| SocketWriter.Socket.Took | skynet/skynet-src/socket_server.c:491-500 | what the wire has taken of the first buffer moves its cursor or finishes it |
| SocketWriter.Socket.Write | skynet/skynet-src/socket_server.c:479-480 | the wire gains exactly the bytes taken of those offered, and nothing else changes it |
| SocketWriter.SendEarly | skynet/skynet-src/socket_server.c:745-757 | what is sent while connecting waits: each priority in order, nothing on the wire |
| SocketWriter.SendOnConnect | skynet/skynet-src/socket_server.c:1103-1135 | after the connection is made and a call of `send_buffer`, all packets stand in one line, high ones first; if the wire takes them, it carries the earlier bytes and then those packets |
| SocketWriter.Socket.WriteRetry | skynet/skynet-src/socket_server.c:479-490 | interrupted writes are repeated, and the bytes are offered anew |
| SocketWriter.Socket.Advance | skynet/skynet-src/socket_server.c:491-496 | a partial write moves the first packet's cursor and the count of unsent bytes by exactly the bytes the wire has taken |
| SocketWriter.Socket.Finish | skynet/skynet-src/socket_server.c:499-500 | a finished packet leaves the list |
| SocketWriter.Socket.RaiseIncomplete | skynet/skynet-src/socket_server.c:584-599 | the low packet begun becomes the high list, which is empty |
| SocketWriter.Socket.ForceClose | skynet/skynet-src/socket_server.c:331-352 | both lists are given up |
| SocketWriter.Socket.Close | skynet/skynet-src/socket_server.c:784-809 | what waits is offered first, and if the wire takes it the socket closes with nothing lost; an orderly close either waits for the unsent packets or, failing no write, has lost none; the half-closed socket waits to write if and only if it was not made by binding |
| SocketWriter.StuckHalfClosed | skynet/skynet-src/socket_server.c:811-826 | a bound socket takes a packet, never waits to write it, and when closed stays half closed |
| SocketWriter.Socket.Connect | skynet/skynet-src/socket_server.c:1103-1135 | a connection that is made waits to write if and only if there is something to write |
| SocketWriter.Socket.Start | skynet/skynet-src/socket_server.c:828-858 | an accepted socket starts connected |
| SocketWriter.SentInOrder | skynet/skynet-src/socket_server.c:475-505 | in every state the wire carries whole packets and at most the beginning of the next, and for each priority what was sent is the beginning of what was accepted |
| SocketWriter.AppendedHigh | skynet/skynet-src/socket_server.c:640-678 | a high packet overtakes only low ones not begun |
| SocketWriter.FinishFirst | skynet/skynet-src/socket_server.c:499-500 | finishing the first pending packet keeps every order |
| SocketWriter.AdvanceFirst | skynet/skynet-src/socket_server.c:491-496 | so does writing part of it |
| SocketWriter.Direct | skynet/skynet-src/socket_server.c:709-729 | so does writing a packet at once, as far as it goes |
| DiffieHellman.MulModP | skynet/lualib-src/lua-crypt.c:664-684 | a * b mod 2^64 - 59, every intermediate below the modulus in 64-bit arithmetic that wraps around |
| DiffieHellman.PowModP | skynet/lualib-src/lua-crypt.c:686-697 | the power, reduced; the modulus itself is returned only for itself to the first power |
| DiffieHellman.PowerMod | skynet/lualib-src/lua-crypt.c:700-705 | equals a^b mod 2^64 - 59 if and only if not (a is the modulus and b is 1) |
| DiffieHellman.DhExchange | skynet/lualib-src/lua-crypt.c:739-757 | 5^x mod 2^64 - 59, and an error for x = 0 |
| DiffieHellman.DhSecret | skynet/lualib-src/lua-crypt.c:722-735 | an error exactly when an argument is zero |
| DiffieHellman.Exchange | skynet/lualib-src/lua-crypt.c:722-757 | both sides derive the same secret, and neither is refused |
| DiffieHellman.Agreement | skynet/lualib-src/lua-crypt.c:722-757 | powers of powers of 5 agree modulo any number |
| DiffieHellman.ExchangeNonzero | skynet/lualib-src/lua-crypt.c:739-757 | the value exchanged is never zero |
| Des.DecodeEncode | skynet/lualib-src/lua-crypt.c:363-436 | decoding inverts encoding for every text, every key schedule and every choice of boxes |
| Des.Encode | skynet/lualib-src/lua-crypt.c:363-396 | whole blocks, then the padded tail |
| Des.Tail | skynet/lualib-src/lua-crypt.c:380-392 | 0x80 and then zeros fill the last block, which may be a whole one |
| Des.Decode | skynet/lualib-src/lua-crypt.c:398-436 | whole blocks backwards, then the padding stripped; an error for an empty text, a length that is no multiple of eight, and bad padding; the search for the padding leaves the buffer if and only if the text is one block that decrypts to zeros |
| Des.Unpad | skynet/lualib-src/lua-crypt.c:421-434 | the loop with its unsigned bound: it runs off the front of the buffer if and only if the buffer is eight zeros, and otherwise strips the padding or reports an error |
| Des.DecodeBlocks | skynet/lualib-src/lua-crypt.c:418-420 | the blocks, one by one |
| Des.ZerosLeave | skynet/lualib-src/lua-crypt.c:418-430 | for every key there is a text on which the search leaves the buffer: the encryption of eight zeros |
| Des.OnlyZerosLeave | skynet/lualib-src/lua-crypt.c:418-430 | and no other text is such a text |
| Des.TurnAround | skynet/lualib-src/lua-crypt.c:403-407 | the subkey pairs in reverse order |
| Des.Crypt | skynet/lualib-src/lua-crypt.c:313-335 | one block: permutation, sixteen rounds with the subkey pairs in order, permutation |
| Des.RoundTable | skynet/lualib-src/lua-crypt.c:227-241 | a round is that of FIPS 46-3: box n is applied to its six key bits added to bits 4n-4 to 4n+1 of the half, counted cyclically, for every choice of boxes |
| Des.Complementation | skynet/lualib-src/lua-crypt.c:313-335 | the complementation property: with every key bit and the block complemented, the output is complemented, for every choice of boxes |
| Des.NotRound | skynet/lualib-src/lua-crypt.c:227-241 | a key and a half both complemented select the same entries |
| Des.InitialTable | skynet/lualib-src/lua-crypt.c:201-212 | the first permutation is the table IP of FIPS 46-3, both halves kept turned by one bit |
| Des.MixedIs | skynet/lualib-src/lua-crypt.c:227-241 | the eight entries are added bit by bit |
| Des.BlockBack | skynet/lualib-src/lua-crypt.c:313-335 | a block encrypted and decrypted is the same block |
| Des.FeistelBack | skynet/lualib-src/lua-crypt.c:230-241 | rounds with the subkey pairs reversed undo the forward rounds, for any round function |
| Des.InitialFinal | skynet/lualib-src/lua-crypt.c:201-226 | the two permutations undo each other, both ways |
| Des.PutGet | skynet/lualib-src/lua-crypt.c:183-197 | writing a word that was read gives the bytes back |
| Des.GetPut | skynet/lualib-src/lua-crypt.c:183-197 | reading a word that was written gives the word back |
| Des.BlocksBack | skynet/lualib-src/lua-crypt.c:363-436 | block by block the same over whole texts |
| Des.StripPad | skynet/lualib-src/lua-crypt.c:421-434 | stripping the padding gives the text back |
| ShareData.Frozen.constructor | skynet/lualib-src/lua-sharedata.c:274-323 | every table with string and 32-bit integer keys is converted: the free-slot assertion never fails, every chain is acyclic and its members share one main slot, and the whole table is filled |
| ShareData.CountSize | skynet/lualib-src/lua-sharedata.c:65-87 | the number of keys that do not fit the array part |
| ShareData.ComputeHash | skynet/lualib-src/lua-sharedata.c:89-98 | the loop over the characters, from the last one in steps |
| ShareData.SampledOnly | skynet/lualib-src/lua-sharedata.c:89-98 | fewer than 32 characters of a long string count: strings of one length that agree on them have one hash |
| ShareData.Frozen.FillArray | skynet/lualib-src/lua-sharedata.c:311-318 | without hash keys the array part alone holds the table |
| ShareData.Frozen.FillNoColliding | skynet/lualib-src/lua-sharedata.c:210-233 | the first pass places each key whose main slot is free and fills the array part |
| ShareData.Frozen.FillColliding | skynet/lualib-src/lua-sharedata.c:235-270 | the second pass chains every other key to its main slot |
| ShareData.Frozen.FindFree | skynet/lualib-src/lua-sharedata.c:250-257 | a free slot is found whenever there is one |
| ShareData.Frozen.Lookup | skynet/lualib-src/lua-sharedata.c:499-528 | the walk ends at the key's slot, or nowhere if and only if the table does not hold it |
| ShareData.Frozen.Index | skynet/lualib-src/lua-sharedata.c:530-564 | returns exactly the value that the table was made with, and nothing for an absent key |
| ShareData.Frozen.NextKey | skynet/lualib-src/lua-sharedata.c:587-644 | each key's successor in one fixed traversal, array part first |
| ShareData.Frozen.NextAfter | skynet/lualib-src/lua-sharedata.c:602-644 | the successor after a given key |
| ShareData.Frozen.ScanArray | skynet/lualib-src/lua-sharedata.c:591-599 | the next index of the array part that is not nil |
| ShareData.Frozen.FirstHash | skynet/lualib-src/lua-sharedata.c:577-585 | the first key of the hash part |
| ShareData.Frozen.VisitAll | skynet/lualib-src/lua-sharedata.c:587-644 | repeated `next` visits every non-nil key exactly once |
| ShareData.PutMainOk | skynet/lualib-src/lua-sharedata.c:210-233 | placing a key at its free main slot keeps the layout |
| ShareData.PutChainedOk | skynet/lualib-src/lua-sharedata.c:235-270 | linking a key after its main slot keeps the layout |
| ShareData.FreeSlot | skynet/lualib-src/lua-sharedata.c:250-257 | as long as a key is missing there is a free slot |
| ShareData.NoFreeSlot | skynet/lualib-src/lua-sharedata.c:250-257 | when none is missing there is none |
| ShareData.Full | skynet/lualib-src/lua-sharedata.c:274-323 | the converted table has no free slot |
| ShareData.TraversalExact | skynet/lualib-src/lua-sharedata.c:587-644 | the traversal lists the non-nil keys, each once |
| Seri.RoundTrip | skynet/lualib-src/lua-seri.c:553-610 | unpacking what was packed returns the same values if and only if they are within the depth limit and their packing is shorter than 2^31 bytes |
| Seri.PackValues | skynet/lualib-src/lua-seri.c:597-610 | packing gives the format of the values if and only if no table is nested too deep and the whole is shorter than 2^31 bytes |
| Seri.IntFormat | skynet/lualib-src/lua-seri.c:140-172 | in numbers: zero is the byte 2; else the first byte is 10, 18, 34 or 50 and one, two, four or eight bytes follow, the least significant first, in two's complement, of the width that the value calls for |
| Seri.StrFormat | skynet/lualib-src/lua-seri.c:188-211 | in numbers: 4 + 8 times the length below 32; else 21 or 37 and the length in two or four bytes |
| Seri.PlainFormat | skynet/lualib-src/lua-seri.c:128-138 | in numbers: nil is 0, the booleans are 1 and 9, reals follow 66 and pointers 3 |
| Seri.TableFormat | skynet/lualib-src/lua-seri.c:215-255 | in numbers: 6 + 8 times the array size below 31, else 254 and the size as an integer; the pairs end with 0 |
| Seri.IntReads | skynet/lualib-src/lua-seri.c:357-398 | reading: 0, 1, 2, 4 and 6 are the only widths, and the bytes mean the signed or unsigned number they spell |
| Seri.WriteBlock.constructor | skynet/lualib-src/lua-seri.c:85-92 | an empty list of blocks |
| Seri.WriteBlock.Alloc | skynet/lualib-src/lua-seri.c:66-70 | a full block gets a successor; the contents stay |
| Seri.WriteBlock.Copy | skynet/lualib-src/lua-seri.c:71-79 | the part that fits a block |
| Seri.WriteBlock.Push | skynet/lualib-src/lua-seri.c:63-83 | the contents of the 128-byte blocks grow by exactly the bytes pushed |
| Seri.WriteBlock.Serialize | skynet/lualib-src/lua-seri.c:532-551 | the blocks flattened are the concatenation of all pushes, cut to the 32-bit length that the code has counted, and nothing if that is negative |
| Seri.WriteBlock.PutInteger | skynet/lualib-src/lua-seri.c:140-172 | one of the six encodings of an integer, which `IntFormat` gives in numbers |
| Seri.WriteBlock.PutString | skynet/lualib-src/lua-seri.c:188-211 | one of three encodings of a string, by its length |
| Seri.WriteBlock.PutHead | skynet/lualib-src/lua-seri.c:215-235 | a table's array size, in the cookie or after it |
| Seri.WriteBlock.PackOne | skynet/lualib-src/lua-seri.c:294-338 | any value, nested to the depth limit and refused beyond it |
| Seri.WriteBlock.PackTable | skynet/lualib-src/lua-seri.c:280-292 | array part, then pairs, then a nil |
| Seri.WriteBlock.PackAll | skynet/lualib-src/lua-seri.c:340-347 | values one after the other |
| Seri.ReadBlock.constructor | skynet/lualib-src/lua-seri.c:109-114 | a cursor at the start |
| Seri.ReadBlock.Read | skynet/lualib-src/lua-seri.c:116-126 | the next bytes, or nothing if there are too few |
| Seri.ReadBlock.Integer | skynet/lualib-src/lua-seri.c:357-398 | an integer of the width that the cookie names |
| Seri.ReadBlock.Count | skynet/lualib-src/lua-seri.c:433-446 | the array size of a table |
| Seri.ReadBlock.String | skynet/lualib-src/lua-seri.c:421-428 | a string of known length, or the move out of the buffer for a negative one |
| Seri.ReadBlock.LongString | skynet/lualib-src/lua-seri.c:487-509 | a string whose length precedes it; a length of 2^31 or more is negative where it is used, and moves the cursor out of the buffer |
| Seri.ReadBlock.UnpackOne | skynet/lualib-src/lua-seri.c:521-530 | one value, an error for a stream that is none, or the move out of the buffer |
| Seri.ReadBlock.PushValue | skynet/lualib-src/lua-seri.c:465-519 | the same after its type byte |
| Seri.ReadBlock.UnpackTable | skynet/lualib-src/lua-seri.c:432-463 | array part, then pairs up to a nil key; a negative count is no array part |
| Seri.ReadBlock.UnpackMany | skynet/lualib-src/lua-seri.c:449-453 | the array part |
| Seri.ReadBlock.UnpackPairs | skynet/lualib-src/lua-seri.c:454-462 | the pairs |
| Seri.ReadBlock.UnpackAll | skynet/lualib-src/lua-seri.c:553-595 | all values of a buffer |
| Seri.IntBack | skynet/lualib-src/lua-seri.c:357-398 | every 64-bit integer survives, at every width and sign extension |
| Seri.StrBack | skynet/lualib-src/lua-seri.c:465-519 | every string survives, at every length class |
| Seri.CountBack | skynet/lualib-src/lua-seri.c:433-446 | every array size survives |
| Seri.PackBack | skynet/lualib-src/lua-seri.c:465-519 | every nested value survives, whatever follows it |
| Seri.PairsBack | skynet/lualib-src/lua-seri.c:454-462 | so do the pairs of a table |
| Seri.AllBack | skynet/lualib-src/lua-seri.c:553-595 | so does a list of values |
| Seri.LongLeaves | skynet/lualib-src/lua-seri.c:487-509 | the cursor leaves the buffer if and only if the length has four bytes and its top bit is set |
| Seri.LeavesBuffer | skynet/lualib-src/lua-seri.c:487-509 | five bytes that make it leave |
| Seri.CutShort | skynet/lualib-src/lua-seri.c:553-595 | the beginning of a packing is never read as the whole of it |
| Seri.ParseMore | skynet/lualib-src/lua-seri.c:465-519 | what follows a value does not change how it is read |
| NetPack.Filter.FilterData | skynet/lualib-src/lua-netpack.c:225-305 | for any interleaving of non-empty chunks over any sockets, what has been returned or queued for a socket is the length-prefixed parse of all its bytes, and what is held is the rest |
| NetPack.Filter.Continue | skynet/lualib-src/lua-netpack.c:229-267 | a packet begun is completed and the rest of the chunk parsed |
| NetPack.Filter.Begin | skynet/lualib-src/lua-netpack.c:268-304 | a chunk with nothing pending is parsed, one packet being returned and more queued |
| NetPack.Filter.PushMore | skynet/lualib-src/lua-netpack.c:186-213 | whole packets are queued and the rest saved |
| NetPack.Filter.PushData | skynet/lualib-src/lua-netpack.c:148-165 | a packet joins the ring, which grows by its fixed step exactly when it has become full; order and contents stay |
| NetPack.Filter.ExpandQueue | skynet/lualib-src/lua-netpack.c:131-146 | the larger ring holds the same packets in order |
| NetPack.Filter.PushRest | skynet/lualib-src/lua-netpack.c:263-267 | a whole packet and all that follow it are queued and the rest saved |
| NetPack.Filter.Take | skynet/lualib-src/lua-netpack.c:90-112 | the pending part of a socket is taken out of its chain, no other socket's part is touched |
| NetPack.Filter.Save | skynet/lualib-src/lua-netpack.c:167-178 | it is put back in the chain of its socket |
| NetPack.Filter.Pop | skynet/lualib-src/lua-netpack.c:394-408 | packets leave the ring in order, across its wrap |
| NetPack.Filter.constructor | skynet/lualib-src/lua-netpack.c:114-129 | nothing queued, nothing pending |
| NetPack.ReadOn | skynet/lualib-src/lua-netpack.c:186-213 | parsing a prefix and then going on is parsing the whole |
| NetPack.StepOn | skynet/lualib-src/lua-netpack.c:225-305 | one more chunk keeps the output in step with the parse |
| NetPack.PackData | skynet/lualib-src/lua-netpack.c:434-450 | the length in two bytes, the higher first, and the data; 65536 bytes and more are refused |
| NetPack.FramedBack | skynet/lualib-src/lua-netpack.c:181-213 | the packets read from a stream are the bodies packed into it, in order, whatever follows |
| NetPack.HashDigits | skynet/lualib-src/lua-netpack.c:83-88 | the hash of a socket is the sum of its digits in base 4096 |
| Gate.Connection.Push | skynet/service-src/databuffer.h:91-123 | the buffered bytes grow by the chunk |
| Gate.Connection.ReadBytes | skynet/service-src/databuffer.h:64-89 | takes the next bytes across message boundaries |
| Gate.TakeBytes | skynet/service-src/databuffer.h:64-89 | the loop over the messages takes exactly the next bytes, wherever they end |
| Gate.Connection.ReadHeader | skynet/service-src/databuffer.h:125-144 | reads the length once and remembers it until the frame is whole |
| Gate.Connection.Clear | skynet/service-src/databuffer.h:151-157 | empties the buffer |
| Gate.Connection.constructor | skynet/service-src/databuffer.h:146-149 | an empty buffer |
| Gate.Connection.Dispatch | skynet/service-src/service_gate.c:189-209 | after any chunk the frames forwarded so far are the parse of all bytes received |
| Gate.Connection.Frames | skynet/service-src/service_gate.c:192-208 | every whole frame is consumed; a length from 2^24 to below 2^31 closes the connection once the whole frame is buffered, and a length that is negative as a signed integer waits for ever |
| Gate.ReadOn | skynet/service-src/service_gate.c:189-209 | parsing is independent of chunking |
| Gate.ReadsPlain | skynet/service-src/service_gate.c:189-209 | with a receiver the frames forwarded are the length-prefixed parse without empty frames if and only if every frame that has come whole is below 2^24 bytes |
| Gate.ReadsNothing | skynet/service-src/service_gate.c:168-187 | without a receiver nothing is forwarded |
| Gate.ReadsUnheard | skynet/service-src/service_gate.c:168-187 | so without one they agree with the parse if and only if there is no frame to forward |
| Gate.OutOfStep | skynet/service-src/service_gate.c:168-187 | without a receiver the body of a frame stays in the buffer and is read as a header: framing is lost |
| Gate.FrameBack | skynet/service-src/databuffer.h:125-144 | a frame with its length in two or in four bytes, the most significant first, is read as its body, in numbers |
| Gate.LengthWeights | skynet/service-src/databuffer.h:133-138 | the length by the weights of its bytes; four bytes with the top bit set are a negative length |
| Handles.HandleStorage.constructor | skynet/skynet-src/skynet_handle.c:242-261 | four free slots and the first handle |
| Handles.HandleStorage.Register | skynet/skynet-src/skynet_handle.c:34-67 | succeeds after at most one doubling unless all 2^24 slots are taken, where the code's assertion fails; the handle is new, is logged, and no other changes |
| Handles.HandleStorage.Scan | skynet/skynet-src/skynet_handle.c:42-54 | finds a free slot if and only if there is one |
| Handles.HandleStorage.Double | skynet/skynet-src/skynet_handle.c:55-65 | the collision assertion holds, every handle is found again and a slot is free |
| Handles.HandleStorage.Grab | skynet/skynet-src/skynet_handle.c:132-149 | finds a handle if and only if it is live |
| Handles.HandleStorage.Retire | skynet/skynet-src/skynet_handle.c:69-106 | removes exactly the one handle, and reports whether it was there |
| Handles.RehashStep | skynet/skynet-src/skynet_handle.c:58-62 | two handles that share no slot share none in twice the slots |
| Handles.HalfFree | skynet/skynet-src/skynet_handle.c:55-66 | after doubling a slot is free |
| Handles.HandleStorage.Run | skynet/skynet-src/skynet_handle.c:34-106 | registrations and retirements in any order: as long as the counter has not gone round, all handles given out are distinct, retired ones included |
| Handles.HandleStorage.Reissued | skynet/skynet-src/skynet_handle.c:42-48 | two handles given out are the same if and only if the counter moved by a multiple of 2^24 between them |
| Handles.HandleStorage.NoReissue | skynet/skynet-src/skynet_handle.c:42-48 | so no handle is given out again before the counter has gone round |
| Handles.NameTable.constructor | skynet/skynet-src/skynet_handle.c:242-261 | no names |
| Handles.NameTable.FindName | skynet/skynet-src/skynet_handle.c:151-179 | exactly the handle that the name was given, or zero |
| Handles.CompareFirst | skynet/skynet-src/skynet_handle.c:151-179 | names are in the order of their first different character, and a beginning comes first |
| Handles.NameTable.Search | skynet/skynet-src/skynet_handle.c:209-223 | binary search finds the name or the place where it belongs |
| Handles.NameTable.InsertBefore | skynet/skynet-src/skynet_handle.c:181-205 | inserts at a place, doubling the table when it is full; fails if and only if it is full and twice its size exceeds the bound |
| Handles.NameTable.Spread | skynet/skynet-src/skynet_handle.c:183-195 | copies into a table of twice the size, leaving the place open |
| Handles.NameTable.Shift | skynet/skynet-src/skynet_handle.c:196-201 | shifts the names behind the place |
| Handles.NameTable.NameHandle | skynet/skynet-src/skynet_handle.c:207-240 | a new name is bound and no other changes; a name that is taken is refused; a full table that may not double fails the code's assertion |
| Handles.NameTable.DropNames | skynet/skynet-src/skynet_handle.c:83-95 | the names of a retired handle go and stand for nothing, every other name stands for what it stood for, in the same order |
| Handles.FindInserted | skynet/skynet-src/skynet_handle.c:207-229 | looking up after an insertion is the map with one more name |
| Handles.WithoutSorted | skynet/skynet-src/skynet_handle.c:83-95 | removal keeps the table sorted |
| Handles.FindWithout | skynet/skynet-src/skynet_handle.c:83-95 | looking up after a removal is the map without the handle's names |
| Handles.WithoutHas | skynet/skynet-src/skynet_handle.c:83-95 | exactly the names of other handles are left |
| Stm.MutualExclusion | skynet/skynet-src/rwlock.h:17-48 | in every state of every interleaving of single atomic operations, a writer inside excludes readers and other writers |
| Stm.WriterAlone | skynet/skynet-src/rwlock.h:32-38 | a writer inside is alone |
| Stm.LockMove | skynet/skynet-src/rwlock.h:17-48 | each move changes the two counters as it changes who is entering or inside |
| Stm.RunInv | skynet/lualib-src/lua-stm.c:91-113 | every reachable state satisfies the invariant: counts equal holders, and holders hold what is in memory |
| Stm.StepInv | skynet/lualib-src/lua-stm.c:91-113 | every move of every thread keeps it |
| Stm.CountMove | skynet/lualib-src/lua-stm.c:45-69 | each move changes a copy's count as it changes its holders, a release in the order of the source: the reference first, then the pointer |
| Stm.CountRelease | skynet/lualib-src/lua-stm.c:55-69 | giving up the object's reference inside the write lock, with the pointer still set |
| Stm.Dangling | skynet/lualib-src/lua-stm.c:55-69 | while the pointer is stale the releasing writer is alone inside |
| Stm.HeldInMemory | skynet/lualib-src/lua-stm.c:203-217 | a copy that a reader holds, or is about to count, is in memory with a positive count |
| Stm.FreedOnce | skynet/lualib-src/lua-stm.c:45-69 | a message is freed at most once, and then no thread holds its copy; the object points to it only inside a release, between giving it up and clearing the pointer, and then no reader is inside |
| Stm.Current | skynet/lualib-src/lua-stm.c:91-113 | in every state of every run the object holds what was last made current: the first copy, the copy of the last update swapped in, or none after a release |
| Stm.JobDone | skynet/lualib-src/lua-stm.c:99-113 | in every run an update or a release that has begun is still ahead, or has become current since |
| Stm.JobBegun | skynet/lualib-src/lua-stm.c:99-113 | so from the call on, an update with the copy made for it |
| Stm.ReadCurrent | skynet/lualib-src/lua-stm.c:85-97 | in every run a read gets what was current at some moment since it began |
| Stm.ReadAfterUpdate | skynet/lualib-src/lua-stm.c:85-113 | a read begun after an update was swapped in gets that update or a later change |
| Stm.ReadGoesOn | skynet/lualib-src/lua-stm.c:199-231 | a read goes on until it answers |
| Stm.ReadReturns | skynet/lualib-src/lua-stm.c:199-231 | the reader keeps the copy it got, and answers that there is nothing new if and only if that is the copy it had, or there is none |
| Stm.ReadAlone | skynet/skynet-src/rwlock.h:17-30 | a reader waits for nothing but a writer: undisturbed, a read ends after eight moves at most, with the current copy |
| Stm.UpdateAlone | skynet/skynet-src/rwlock.h:32-48 | with nobody inside, an update is current after five moves and has left the lock |
| Sha1.Transform | skynet/lualib-src/lsha1.c:122-171 | the in-place schedule with renamed registers computes the 80 rounds of section 6.1.2 of FIPS 180-4 |
| Sha1.R | skynet/lualib-src/lsha1.c:114-118 | one round macro is one round of the standard, with the registers renamed |
| Sha1.Blk | skynet/lualib-src/lsha1.c:107-111 | the 16-word window holds the last 16 words of the 80-word schedule |
| Sha1.SameMix | skynet/lualib-src/lsha1.c:114-118 | the four boolean expressions of the macros are the functions of section 4.1.1 of FIPS 180-4 |
| Sha1.Rotations | skynet/lualib-src/lsha1.c:99-99 | the rotations by one, five and thirty, each by single bits |
| Sha1.RootConstants | skynet/lualib-src/lsha1.c:114-118 | the four constants are the whole parts of 2^30 times the square roots of 2, 3, 5 and 10 |
| Sha1.InitialWords | skynet/lualib-src/lsha1.c:174-184 | the bytes of the initial words count up, down and in pairs |
| Sha1.DigestWords | skynet/lualib-src/lsha1.c:231-234 | the digest read as big-endian words is the registers |
| Sha1.BigIs | skynet/lualib-src/lsha1.c:220-225 | the bytes of a count by their weights, the most significant first |
| Sha1.TurnLoad | skynet/lualib-src/lsha1.c:107-108 | the two rotations and masks turn a little-endian word around |
| Sha1.Context.constructor | skynet/lualib-src/lsha1.c:175-184 | the initial hash value and an empty message |
| Sha1.Context.Update | skynet/lualib-src/lsha1.c:188-213 | the state is the hash of the whole blocks so far and the buffer the rest; the 64-bit count stays right if and only if the chunk is below 2^29 bytes or its low word happens to carry |
| Sha1.Context.Absorb | skynet/lualib-src/lsha1.c:199-208 | the same for state and buffer alone |
| Sha1.Context.FillBlock | skynet/lualib-src/lsha1.c:200-201 | a block completed from the buffer is hashed |
| Sha1.Context.WholeBlocks | skynet/lualib-src/lsha1.c:202-204 | whole blocks are hashed from the chunk |
| Sha1.Context.Final | skynet/lualib-src/lsha1.c:217-242 | the hash of the message padded as in section 5.1.1 of FIPS 180-4, with the count words the context has; the standard's hash if they are right |
| Sha1.HashChunks | skynet/lualib-src/lsha1.c:247-259 | any chunking gives the hash of the concatenation with the count that the code arrives at, which is the standard's hash whenever the count is right |
| Sha1.XorKey | skynet/lualib-src/lsha1.c:263-270 | every byte of the key is changed with the constant |
| Sha1.HmacSha1 | skynet/lualib-src/lsha1.c:272-310 | the construction of section 2 of RFC 2104 if the key is below 2^29 bytes and the text is, or carries |
| Sha1.HighExact | skynet/lualib-src/lsha1.c:196-198 | exactly when the upper count word is right after a chunk of any length |
| Sha1.CountsRight | skynet/lualib-src/lsha1.c:188-198 | over any chunks the count is right if and only if the number of chunks that are at least 2^29 bytes and do not carry is a multiple of 2^32; below 2^61 bytes, if and only if there is none |
| Sha1.CountsBad | skynet/lualib-src/lsha1.c:188-198 | each such chunk makes the upper count word one too large |
| Sha1.Context.PadOut | skynet/lualib-src/lsha1.c:226-229 | as many zeros as leave room for the length, fed one at a time |
| Sha1.LongChunkMiscounted | skynet/lualib-src/lsha1.c:196-198 | a chunk of 2^29 bytes at the start is counted one too many in the upper word |

## Left out

- The Go proxies, the harbor, the logger, the loader of services, configuration and start-up: glue around system calls.
- System calls, polling, pipes and name resolution: the answers to a write are drawn from an arbitrary script.
- Timer.Wheel.Run: does not model the clock that decides how many ticks a call makes, nor the thread that makes it.
- Timer.Wheel.Timeout: whether the message for a delay of zero is delivered is a parameter.
- Scheduler: the creation of a context is one step up to the call of its initializer; overload warnings, profiling, `dispatchall` and the monitor are not modelled; how many
  messages a worker takes before it goes on is arbitrary; handles are not reused.
- MessageQueue: spin locks are the granularity of the steps; `skynet_mq_overload` only reads and clears a number.
- Scheduler.StoreAfterFree: what a store to freed memory does to others is not modelled; it changes no service here.
- Collector: finalizers, weak-value and all-weak tables, open upvalues and upvalue cells, prototypes, fixed objects,
  the string table, and the debt and pause heuristics. Reference lists of objects are values that the mutator replaces;
  the saved gray-again list is a value while the atomic phase visits it. Non-collectable values are not represented.
- Collector.GlobalState.EmptyGray: the conditions for and against the assertion do not meet; in between, the order of
  the gray list and of the entries decides.
- Collector.GlobalState.ChangeMode: a change of a table's mode that is not followed by a store is taken to leave its
  references as they are.
- Bignum: the free lists that recycle blocks, and the smaller word sizes.
- Decimal: floating point, the estimate of the decimal exponent, the shortest-digits loop and `strtod`. The scaling that
  makes the dividend at least the divisor and less than ten times it, with four leading zero bits, is a precondition.
- Bignum.Cmp: does not cover two numbers without words, for which the code reads outside the words in use; the callers
  never pass two of them.
- SocketWriter: UDP, user objects, listening and reading, the reuse of slots by later connections, and the event queue.
- SocketWriter.Socket.Write: is the environment; its answer is the next of an arbitrary script.
- DiffieHellman.PowModP: does not cover the exponent zero, for which the recursion does not end; both callers refuse it.
- DiffieHellman.PowerMod: for the same reason.
- Des: the contents of the substitution boxes and the key schedule; what is proved holds for any of them. The byte order
  of 64-bit values, `hmac64`, base64 and hexadecimal.
- ShareData: nested tables, the string pool, reference counts and the dirty flag.
- ShareData.Frozen.constructor: covers string keys and integer keys of 32 bits; the code truncates longer ones.
- ShareData.Frozen.Index: the same.
- Seri: tables with a `__pairs` metamethod; the bytes of reals and pointers are opaque. The length of what is packed wraps
  around at 32 bits.
- Seri.ReadBlock.constructor: the length of a buffer to be read is not cut to an `int`.
- NetPack: the clearing of a closed socket's part.
- Gate: the free list of messages and the table of connections.
- Handles: `retireall`, the lock, and the context behind a handle; handles wrap after 2^24.
- Stm: the freeing of the shared object itself.
- Sha1: the wiping of buffers.
