# Graphite, verified in Dafny

Graphite is a distributed simulator for multicore machines. This project models the parts of it that
keep state under hard invariants and proves these invariants for every input, every run and every
reachable state. `dafny verify dfyconfig.toml` checks the whole project.

| file | what it models |
|---|---|
| `IntervalTreeShape.dfy`, `IntervalTree.dfy` | The AVL tree of free time intervals, with parent links, rotations in place, deletion through the successor and the pruned first-fit search. The first file is the theory of trees with a hole; the second is the linked structure. |
| `QueueModel.dfy` | The contention model that books slots on a resource by cutting them out of the tree. |
| `RingBarrier.dfy` | The barrier between processes: two trips of tokens around a ring. |
| `Semaphore.dfy` | The semaphore on a futex word, step by step, with spurious wakeups. |
| `SyncServer.dfy`, `SyncClients.dfy`, `SyncHistory.dfy`, `SyncMaster.dfy` | Mutexes, condition variables and barriers on the master; the blocking clients and the messages in flight; what whole runs amount to; the handlers in place. |
| `ThreadScheduler.dfy`, `ThreadMaster.dfy` | Spawning, starting, yielding, migrating and ending threads; the handlers in place. |
| `InitialStack.dfy`, `Words.dfy` | The two-pass builder of the initial stack. |
| `TaggedFrames.dfy`, `TaggedStream.dfy` | Tagged messages over byte streams that are cut anywhere, and the lists they end up in. |
| `FutexServer.dfy` | The futex queues of the master. |
| `ConfigTree.dfy` | Escaping, printing and evaluating configuration trees. |
| `TileMap.dfy` | The partition of tiles over processes and of the stack area over threads. |
| `BitVector.dfy` | The bit vector with its nested scan. |
| `Basics.dfy`, `Arithmetic.dfy` | Shared definitions; division with remainder. |

Protocols are state machines: `Enabled` says when a step may happen, `Next` or `Step` what it does, and the
run theorems quantify over all sequences of enabled steps. Where the program changes objects in place,
a class does the same and each method is tied to the corresponding step. No proof relies on automatic
induction: inductive proofs are written out.

Parameters stand for what lies outside: the affinity mask of a thread, the number of bytes a system
call returns, whether a text reads as a number, the value and the condition of a futex operand, the end
of simulated time. A request that the source answers with a failed assertion (an object that does not
exist, an unlock by somebody else, a barrier with too many cores) ends the run.

Where the code and its comments differ, the model follows the code:

- The iterator class kept in condition-variable waiters does not assign, so erasing the first waiter
  shifts the core ids but not the mutexes. `SyncServer.EraseFirst` does that. The theorems about whole
  runs assume that concurrent waiters name one mutex, as `pthread_cond_wait` of POSIX.1-2017 demands;
  `SyncClients.SignalKeepsStored` shows for a single signal and `SyncServer.SignalsRelockRightMutex` for
  successive ones that without it some waiter is left with the wrong mutex.
- Threads without a destination are said to be strided across cores; the search goes on after a hit, so
  the highest slot index wins (`ThreadMaster.Master.PickSlot`).
- The choice of "any core with an idle thread" for a migrating thread cannot be reached, because the
  destination starts as the present core. A target without an idle slot leaves the thread where it is,
  but the reply names the target all the same (`ThreadMaster.YieldReplyWrong`).
- A thread that was started and does not run yet counts as not running, so a migration request may take
  it from the front of its queue; `ThreadScheduler.MigrateRequest` shows that this breaks the invariant.
- The lookup of a thread from a stack pointer does not subtract the lower limit of the area
  (`TileMap.ThreadRightIff`).
- A message without payload is never completely received, and the update thread waits for it for good
  (`TaggedStream.StuckForGood`).
- The stack pointer is rounded down to a multiple of 256, more than the layout asks for.
- A key name with a backslash but without space or quote is printed unescaped and does not survive
  (`ConfigTree.RoundTrip`).

## Model

| member | source | states |
|---|---|---|
| `IntervalTrees.IntervalTree.constructor` | carbon_sim_git/common/misc/interval_tree.cc:40-43 | A tree of one initialised node is valid: search order, links in both directions, exact heights, balance, and a size that counts the nodes. |
| `IntervalTrees.IntervalTree.Insert` | carbon_sim_git/common/misc/interval_tree.cc:265-309 | Inserting a fresh key keeps the tree valid and adds exactly that interval at its place in the order; a key that is present is reported and the contents stay as they were. |
| `IntervalTrees.IntervalTree.InsertInTree` | carbon_sim_git/common/misc/interval_tree.cc:273-309 | Wherever the descent starts, the whole tree ends up with the new interval in order, every height exact and every node balanced. |
| `IntervalTrees.IntervalTree.Remove` | carbon_sim_git/common/misc/interval_tree.cc:311-317 | The contents lose exactly the interval of the given node; the node handed back carries that interval and is no longer reachable; the size stays the number of nodes. |
| `IntervalTrees.IntervalTree.RemoveFromTree` | carbon_sim_git/common/misc/interval_tree.cc:319-356 | The same for the tree below, also when rotations move the node before it takes over the contents of its successor. |
| `IntervalTrees.IntervalTree.RebalanceAvlTree` | carbon_sim_git/common/misc/interval_tree.cc:209-242 | Although the upward walk stops at the first unchanged height, the whole tree is then balanced with exact heights and has the same in-order contents and nodes. |
| `IntervalTrees.IntervalTree.BalanceHeight` | carbon_sim_git/common/misc/interval_tree.cc:147-207 | A node whose subtrees differ by two in height is turned into the balanced form by one or two rotations, whichever sides are heavier. |
| `IntervalTrees.IntervalTree.PerformRotation` | carbon_sim_git/common/misc/interval_tree.cc:109-145 | Parent and child links, the root and the two heights after a rotation are those of the rotated tree, anywhere in the tree. |
| `IntervalTrees.IntervalTree.FindMinKeyNode` | carbon_sim_git/common/misc/interval_tree.cc:256-263 | The leftmost node of a subtree: nothing of the subtree comes before it in order. |
| `IntervalTrees.IntervalTree.Swap` | carbon_sim_git/common/misc/interval_tree.cc:244-254 | Key and interval change places; the links of the tree are untouched. |
| `IntervalTrees.IntervalTree.UpdateChildPointer` | carbon_sim_git/common/misc/interval_tree.cc:50-78 | The child is hung on the side that the direction, or else the order of the keys, gives. |
| `IntervalTrees.IntervalTree.UpdateParentPointer` | carbon_sim_git/common/misc/interval_tree.cc:80-87 | A node without a parent becomes the root. |
| `IntervalTrees.IntervalTree.Search` | carbon_sim_git/common/misc/interval_tree.cc:358-394 | For strictly separated intervals the pruned search returns the lowest-start node that contains the request or starts after it with enough length, and nothing exactly when there is none: it agrees with a scan from the left. |
| `IntervalTrees.IntervalTree.SearchTree` | carbon_sim_git/common/misc/interval_tree.cc:365-394 | The same for any subtree. |
| `IntervalTreeShape.LeftCannotFit` | carbon_sim_git/common/misc/interval_tree.cc:377-383 | Why the left subtree may be skipped: nothing before an interval that the request does not precede can hold the request. |
| `IntervalTreeShape.ClockwiseKeeps` | carbon_sim_git/common/misc/interval_tree.cc:115-127 | A clockwise rotation keeps the in-order contents and the nodes. |
| `IntervalTreeShape.AntiClockwiseKeeps` | carbon_sim_git/common/misc/interval_tree.cc:128-140 | So does the other rotation. |
| `IntervalTreeShape.BalancedIsAvl` | carbon_sim_git/common/misc/interval_tree.cc:178-206 | The choice between single and double rotation always restores balance, and the new height is the old one or one less. |
| `IntervalTreeShape.BalancedKeeps` | carbon_sim_git/common/misc/interval_tree.cc:178-206 | Single and double rotations keep the in-order contents and the nodes. |
| `IntervalTreeShape.RepairedIsAvl` | carbon_sim_git/common/misc/interval_tree.cc:215-227 | One step of the upward walk leaves its subtree balanced with exact height. |
| `IntervalTreeShape.SuccessorTakesOver` | carbon_sim_git/common/misc/interval_tree.cc:341-354 | Removing the successor and moving its contents into the node removes exactly the contents of the node. |
| `IntervalTreeShape.RemovedWhole` | carbon_sim_git/common/misc/interval_tree.cc:319-356 | The contents after a removal are the ones before it without one entry. |
| `IntervalTreeShape.AvlSize` | carbon_sim_git/common/misc/interval_tree.cc:209-242 | n nodes in a balanced tree of height h satisfy Fib(h+2) <= n+1. |
| `IntervalTrees.IntervalTree.HeightBound` | carbon_sim_git/common/misc/interval_tree.cc:209-242 | In every valid tree the height kept at the root is logarithmic in the size kept beside it: Fib(height+2) <= size+1; there is no root if and only if the size is 0. |
| `QueueModels.QueueModelHistoryTree.constructor` | carbon_sim_git/common/shared_models/queue_models/queue_model_history_tree.cc:13-34 | All time is free and nothing is booked. |
| `QueueModels.QueueModelHistoryTree.ComputeQueueDelay` | carbon_sim_git/common/shared_models/queue_models/queue_model_history_tree.cc:43-126 | One request after any others. A full history gives up its oldest room; if none has any, there is no answer. Then the analytical model is asked if and only if it is enabled and the request ends before all room; otherwise the request is served if and only if some free interval can hold it, at the earliest time any of them allows, in a slot that overlaps none given before. What is free afterwards is what was free before, beside the slot: every stretch long enough for a request is still free, and nothing else is. |
| `QueueModels.QueueModelHistoryTree.ServeRequest` | carbon_sim_git/common/shared_models/queue_models/queue_model_history_tree.cc:58-114 | The same once there is room for one more free interval; whenever the request is not served, nothing changes. |
| `QueueModels.QueueModelHistoryTree.ServeFromHistory` | carbon_sim_git/common/shared_models/queue_models/queue_model_history_tree.cc:67-114 | Served if and only if some free interval can hold the request, then at the earliest time possible, and what is long enough beside the slot stays free. |
| `QueueModels.QueueModelHistoryTree.Serve` | carbon_sim_git/common/shared_models/queue_models/queue_model_history_tree.cc:74-113 | The five ways of cutting a slot out of a free interval: every stretch beside the slot that is long enough for a request stays free, no remainder is shorter than the minimum, free intervals stay separated and apart from all slots, and the slot is booked; the delay is the distance to its start. |
| `QueueModels.QueueModelHistoryTree.Prune` | carbon_sim_git/common/shared_models/queue_models/queue_model_history_tree.cc:49-56 | A full history loses exactly the first interval with any room; it fails if and only if it is full and none has; a history that is not full is left alone. |
| `QueueModels.PrunedLosesOldest` | carbon_sim_git/common/shared_models/queue_models/queue_model_history_tree.cc:51-56 | Exactly the first interval with any room is given up; everything before it is too short for any request. |
| `QueueModels.QueueModelHistoryTree.BeforeHistory` | carbon_sim_git/common/shared_models/queue_models/queue_model_history_tree.cc:58-64 | The analytical model is asked if and only if the first interval with any room starts after the end of the request. |
| `QueueModels.QueueModelHistoryTree.FindSlot` | carbon_sim_git/common/shared_models/queue_models/queue_model_history_tree.cc:67-74 | The first interval in order that fits, and none if and only if no free interval can hold the request. |
| `QueueModels.SearchDecides` | carbon_sim_git/common/shared_models/queue_models/queue_model_history_tree.cc:67-113 | The first-fit search succeeds if and only if some free interval can hold the request, and first fit in order of start is earliest fit. |
| `QueueModels.HeldMeansRoom` | carbon_sim_git/common/shared_models/queue_models/queue_model_history_tree.cc:58-74 | A request that can be held leaves room for the shortest one, so the check of the oldest room never turns away a request that could be served. |
| `QueueModels.SlotCut` | carbon_sim_git/common/shared_models/queue_models/queue_model_history_tree.cc:76-113 | What is kept of an interval beside a slot stays apart from this slot and all others. |
| `QueueModels.ServedBeside` | carbon_sim_git/common/shared_models/queue_models/queue_model_history_tree.cc:76-113 | What is free after a slot was cut out is what was free before, beside the slot: stretches of at least the minimum stay inside free intervals, and each free interval was one before or is a long enough part of one, apart from the slot. |
| `QueueModels.LaterRequests` | carbon_sim_git/common/shared_models/queue_models/queue_model_history_tree.cc:67-113 | After a request was served, a later one of at least the minimum processing time can be held if and only if it could be held before at some time that does not touch the slot. |
| `QueueModels.BeforeAllIs` | carbon_sim_git/common/shared_models/queue_models/queue_model_history_tree.cc:58-64 | The test for the analytical model means: there is room, and all of it starts after the request ends. |
| `QueueModels.CutConsistent` | carbon_sim_git/common/shared_models/queue_models/queue_model_history_tree.cc:76-113 | Cutting a slot from one free interval keeps all slots pairwise apart and out of the free intervals. |
| `RingBarrier.RingArithmetic` | carbon_sim_git/common/transport/socktransport.cc:303-303 | Successor and predecessor in the ring are the remainders the source computes and undo each other. |
| `RingBarrier.StepConserves` | carbon_sim_git/common/transport/socktransport.cc:287-317 | Every step keeps, for each process: tokens in the channel, in the semaphore and already consumed are the tokens its predecessor sent. |
| `RingBarrier.RunConserves` | carbon_sim_git/common/transport/socktransport.cc:287-317 | So does every run, for any number of processes and rounds. |
| `RingBarrier.BarrierSafety` | carbon_sim_git/common/transport/socktransport.cc:287-317 | No process has left round k before every process has entered it, in every reachable state of a run of any length, even when tokens of the next round are already queued. |
| `RingBarrier.AtMostOneRoundApart` | carbon_sim_git/common/transport/socktransport.cc:287-317 | No two processes are more than one round apart. |
| `RingBarrier.BarrierProgress` | carbon_sim_git/common/transport/socktransport.cc:303-314 | Once all processes have entered a round that some process has not left, some process or message can move. |
| `RingBarrier.RoundEnds` | carbon_sim_git/common/transport/socktransport.cc:303-314 | A round without new entries takes a bounded number of moves, and when nothing can move everybody has left it. |
| `RingBarrier.RoundCost` | carbon_sim_git/common/transport/socktransport.cc:303-314 | From all outside round k to all outside round k+1 there are exactly 2N-1 messages and 2N-1 waits. |
| `RingBarrier.NothingLeftOver` | carbon_sim_git/common/transport/socktransport.cc:303-314 | When all have left, every channel and semaphore is empty. |
| `Semaphore.StepInv` | carbon_sim_git/common/misc/semaphore.cc:19-67 | Each atomic step of wait, signal and broadcast, and each spurious wakeup, keeps the lock discipline, the token count, the waiter count and the meaning of the futex word. |
| `Semaphore.RunInv` | carbon_sim_git/common/misc/semaphore.cc:19-67 | So does every interleaving of any number of threads. |
| `Semaphore.TokensBounded` | carbon_sim_git/common/misc/semaphore.cc:37-45 | Tokens taken never exceed the initial count plus the signals, and the count is exactly their difference. |
| `Semaphore.NoLostWakeup` | carbon_sim_git/common/misc/semaphore.cc:23-53 | Whenever the lock is free: if a thread sleeps in the kernel, the count is at most the number of waiters already awake; and with waiters and a positive count the futex word is set. |
| `Semaphore.TokenMeansProgress` | carbon_sim_git/common/misc/semaphore.cc:23-53 | While somebody sleeps and a token is there, some thread that is not asleep can take a step. |
| `Semaphore.OneTokenPerCall` | carbon_sim_git/common/misc/semaphore.cc:19-39 | Over every run and for every thread: its calls of wait are the tokens it took and the call it is in, its posts are the tokens it gave and the one it has yet to give; a thread that is outside has taken one token for each of its waits and given one for each of its posts. |
| `Semaphore.CallsAccounted` | carbon_sim_git/common/misc/semaphore.cc:19-69 | Over every run the calls of wait are the tokens taken plus the threads inside, and the calls of signal and broadcast are the tokens given plus the threads that have yet to give theirs; so the count is determined by the calls alone. |
| `Semaphore.CallsEnd` | carbon_sim_git/common/misc/semaphore.cc:19-69 | Over every run a thread makes at most seven steps for each call and for each time it finds no token: every post returns, and a wait goes on only by finding no token again. |
| `Semaphore.NoBusyWaiting` | carbon_sim_git/common/misc/semaphore.cc:23-34 | While there is no token, nobody posts and no wakeup is spurious, a waiter makes boundedly many steps and then sleeps. |
| `SyncServer.Balance` | carbon_sim_git/common/system/sync_server.cc:26-375 | For every core and every request: the queues it is in afterwards plus the answers sent to it are the queues before plus one if it made the request. Nobody is lost, duplicated or answered without leaving a queue. |
| `SyncServer.StatusOf` | carbon_sim_git/common/system/thread_manager.cc:739-799 | An answer makes a core run, a request without an answer stalls its core, nobody else changes. |
| `SyncServer.HandleInv` | carbon_sim_git/common/system/sync_server.cc:26-157 | Every legal request keeps: a core is stalled exactly when it is in a queue, it is in at most one, a mutex without owner has no waiters, no barrier keeps a complete generation. |
| `SyncServer.BroadcastPerMutex` | carbon_sim_git/common/system/sync_server.cc:101-118 | A broadcast grants a mutex to at most one of the waiters listed with it, only if it was free, and appends the others to its queue in arrival order. |
| `SyncServer.BroadcastWakes` | carbon_sim_git/common/system/sync_server.cc:101-118 | With one mutex for all waiters, a broadcast answers the first waiter if the mutex was free and nobody otherwise. |
| `SyncServer.MutexAfter` | carbon_sim_git/common/system/sync_server.cc:26-56 | What any request does to any mutex: it is handed to its first waiter or freed, or some cores ask for it in order. |
| `SyncServer.FifoStep` | carbon_sim_git/common/system/sync_server.cc:41-56 | Waiting cores followed by those who ask now are those who are granted the mutex now followed by those who wait afterwards. |
| `SyncServer.SignalsRelockRightMutex` | carbon_sim_git/common/system/sync_server.cc:75-99 | Over successive signals every woken core asks for the mutex it waited with if and only if all waiters named the same mutex. |
| `SyncServer.WrongMutexAfterSignal` | carbon_sim_git/common/misc/stable_iterator.h:19-22 | Whenever two cores that hold different mutexes wait on one empty condition variable and it is signalled twice, the second core ends up waiting for the mutex of the first while its own is free: assigning the iterator has no effect when the vector shifts. |
| `SyncServer.CreatedIsNew` | carbon_sim_git/common/system/sync_server.cc:169-175 | A request for a new object gets one answer, the id of an object that did not exist: a free mutex, an empty condition variable, or an empty barrier with the count of the request; everything else is as it was. |
| `SyncServer.LockTimes` | carbon_sim_git/common/system/sync_server.cc:219-224 | Whoever is told that it has a mutex is told the time of the request that gave it the mutex. |
| `SyncClients.NewReplies` | carbon_sim_git/common/system/sync_server.cc:177-375 | Every answer a handler sends is of the kind its receiver is blocked for, and a lock response finds its receiver the owner. |
| `SyncClients.BarrierGeneration` | carbon_sim_git/common/system/sync_server.cc:132-157 | The arrival that completes the count, and no other, lets the barrier through: then exactly the cores of this generation are answered, with the largest arrival time among them, and the barrier is empty again; otherwise the core is appended and stalled and nobody is answered. |
| `SyncClients.BarrierReleases` | carbon_sim_git/common/system/sync_server.cc:349-375 | The same for every barrier request that is handled in any reachable state. |
| `SyncClients.SignalKeepsStored` | carbon_sim_git/common/system/sync_server.cc:75-99 | A signal leaves the right mutex beside every remaining waiter if and only if all waiters named one mutex. |
| `SyncClients.StepInv` | carbon_sim_git/common/system/sync_client.cc:24-93 | Calls, handlers and returns keep the invariant of server, clients and messages in flight. |
| `SyncClients.RunInv` | carbon_sim_git/common/system/sync_client.cc:24-93 | It holds in every reachable state, whatever the order in which messages of different cores arrive. |
| `SyncClients.BlockedInOnePlace` | carbon_sim_git/common/system/sync_server.cc:26-157 | In every reachable state a blocked core has its request in flight, or sits in exactly one wait queue, or has exactly one reply pending; it is stalled if and only if it is queued; an unowned mutex has no waiters. |
| `SyncClients.MutualExclusion` | carbon_sim_git/common/system/sync_server.cc:26-56 | In every reachable state two clients never hold the same mutex. |
| `SyncClients.RepliesMatch` | carbon_sim_git/common/system/sync_client.cc:68-81 | In every reachable state each reply on its way is the one its receiver checks for. |
| `SyncClients.AnsweredAtMostOnce` | carbon_sim_git/common/system/sync_client.cc:45-93 | Over every run a core has been sent as many answers as it made calls, less the one still in flight or queued. |
| `SyncClients.RunFifo` | carbon_sim_git/common/system/sync_server.cc:41-56 | Over every run the cores that asked for a mutex are those that were granted it followed by those that still wait, in the order of asking. |
| `SyncHistory.BarrierArrivals` | carbon_sim_git/common/system/sync_server.cc:121-157 | In every reachable state there are as many barriers as were asked for, each with the count it was asked for with; the cores that arrived at one are those that were answered followed by those that wait, and as many wait as the number of arrivals leaves over when divided by the count; so as many arrivals as the count are all answered. |
| `SyncHistory.RunCounts` | carbon_sim_git/common/system/sync_server.cc:338-347 | Over every run the counts of the barriers are those of the requests that created them, in order. |
| `SyncHistory.RunCondFifo` | carbon_sim_git/common/system/sync_server.cc:64-118 | Over every run the cores that waited on a condition variable are those that were woken, the longest waiting first, followed by those that still wait. |
| `SyncHistory.WokenAsks` | carbon_sim_git/common/system/sync_server.cc:83-86 | In every state that satisfies the invariant, whoever a signal or broadcast wakes asks for the mutex it waited with. |
| `SyncHistory.OwnerHolds` | carbon_sim_git/common/system/sync_server.cc:26-56 | In every reachable state the owner of a mutex is a client that holds it, is about to be told so, or has a request to give it up in flight; and whoever holds it or is about to be told is the owner: no mutex is left with a core that gave it up. |
| `SyncMaster.Master.constructor` | carbon_sim_git/common/system/sync_server.cc:161-164 | A server without objects, all cores running, satisfies the invariant. |
| `SyncMaster.Master.StallThread` | carbon_sim_git/common/system/thread_manager.cc:740-771 | Needs a running core; nothing else changes. |
| `SyncMaster.Master.ResumeThread` | carbon_sim_git/common/system/thread_manager.cc:772-799 | Needs a core that is not running; nothing else changes. |
| `SyncMaster.Master.LockMutex` | carbon_sim_git/common/system/sync_server.cc:26-39 | Takes a free mutex, or stalls the core and appends it. |
| `SyncMaster.Master.UnlockMutex` | carbon_sim_git/common/system/sync_server.cc:41-56 | Hands the mutex to the first waiter, which resumes, or frees it. |
| `SyncMaster.Master.MutexInit` | carbon_sim_git/common/system/sync_server.cc:169-175 | The handler is the step of the protocol and keeps the invariant; a free mutex is appended and its index answered. |
| `SyncMaster.Master.MutexLock` | carbon_sim_git/common/system/sync_server.cc:177-201 | The handler is the step of the protocol and keeps the invariant; the core it stalls was running; lock responses carry the time of this request. |
| `SyncMaster.Master.MutexUnlock` | carbon_sim_git/common/system/sync_server.cc:203-232 | The handler is the step of the protocol and keeps the invariant; the core it resumes was stalled; lock responses carry the time of this request. |
| `SyncMaster.Master.CondInit` | carbon_sim_git/common/system/sync_server.cc:235-241 | The handler is the step of the protocol and keeps the invariant; an empty condition variable is appended and its index answered. |
| `SyncMaster.Master.CondWait` | carbon_sim_git/common/system/sync_server.cc:243-270 | The handler is the step of the protocol and keeps the invariant; no check of the thread manager fails; lock responses carry the time of this request. |
| `SyncMaster.Master.SignalCond` | carbon_sim_git/common/system/sync_server.cc:75-99 | The first waiter leaves the condition variable and owns its mutex or queues for it. |
| `SyncMaster.Master.CondSignal` | carbon_sim_git/common/system/sync_server.cc:273-304 | The handler is the step of the protocol and keeps the invariant; no check of the thread manager fails; lock responses carry the time of this request. |
| `SyncMaster.Master.WakeAll` | carbon_sim_git/common/system/sync_server.cc:101-118 | The loop over the waiters gives the grants of the protocol; each waiter is stalled when it is resumed. |
| `SyncMaster.Master.CondBroadcast` | carbon_sim_git/common/system/sync_server.cc:306-336 | The handler is the step of the protocol and keeps the invariant; lock responses carry the time of this request. |
| `SyncMaster.Master.BarrierInit` | carbon_sim_git/common/system/sync_server.cc:338-347 | The handler is the step of the protocol and keeps the invariant; an empty barrier with the count asked for is appended and its index answered. |
| `SyncMaster.Master.ResumeAll` | carbon_sim_git/common/system/sync_server.cc:148-155 | Each core of the generation is resumed once, from a stalled state. |
| `SyncMaster.Master.BarrierWait` | carbon_sim_git/common/system/sync_server.cc:349-375 | The handler is the step of the protocol and keeps the invariant. |
| `ThreadScheduler.ResumedInv` | carbon_sim_git/common/system/thread_scheduler.cc:113-137 | Starting a new front thread or resuming a stalled one makes it the only active thread of its tile and disturbs no other tile. |
| `ThreadScheduler.SpawnInv` | carbon_sim_git/common/system/thread_scheduler.cc:144-194 | A spawn keeps the invariant of all tiles, also when the requester runs on the destination tile. |
| `ThreadScheduler.StartedInv` | carbon_sim_git/common/system/thread_manager.cc:137-142 | A thread that reports in is the front of its queue; the invariant is kept. |
| `ThreadScheduler.ExitInv` | carbon_sim_git/common/system/thread_manager.cc:185-203 | An exit keeps the invariant; the exiting thread was the front. |
| `ThreadScheduler.MigrateInv` | carbon_sim_git/common/system/thread_scheduler.cc:284-365 | Moving any waiting thread, wherever it stands in its queue, to an idle slot of another tile keeps the invariant of both tiles and the order of the threads left behind. |
| `ThreadScheduler.MigrateRequest` | carbon_sim_git/common/system/thread_scheduler.cc:265-296 | A request to migrate a thread that does not run keeps the invariant if and only if the thread is not at the front of its queue: one at the front was started already and is put back among those still to be started. |
| `ThreadScheduler.YieldInv` | carbon_sim_git/common/system/thread_scheduler.cc:652-712 | A yield, with or without migration, keeps the invariant. |
| `ThreadScheduler.WithoutAt` | carbon_sim_git/common/system/thread_scheduler.cc:298-318 | Searching the source queue takes out one entry and keeps the order of the rest. |
| `ThreadScheduler.TargetInRange` | carbon_sim_git/common/system/thread_scheduler.cc:488-533 | A thread leaves only for a tile of its mask on which nothing runs. |
| `ThreadScheduler.TargetIs` | carbon_sim_git/common/system/thread_scheduler.cc:500-533 | A thread stays if and only if its mask is empty, names its tile, or somebody runs on every tile of it; otherwise it goes to the first tile of the mask on which nobody runs. |
| `ThreadScheduler.Initial` | carbon_sim_git/common/system/thread_manager.cc:33-53 | With the main thread running on tile 0 and every application tile idle the invariant holds. |
| `ThreadScheduler.StepInv` | carbon_sim_git/common/system/thread_scheduler.cc:101-365 | Every message the master handles keeps the invariant. |
| `ThreadScheduler.TileInvariant` | carbon_sim_git/common/system/thread_scheduler.cc:101-365 | In every reachable state there are as many tiles as at the start, and on each of them but 0: the queue names the slots that are not idle, each once; its front is the only thread running or started and about to run; all others are stalled or not started; the table leads from every queued thread id to its slot. |
| `ThreadScheduler.StartedExactlyOnce` | carbon_sim_git/common/system/thread_scheduler.cc:196-241 | In every reachable state every thread id given out has been started exactly once, or its thread still waits in its slot for the first turn; no other id is ever started. |
| `ThreadScheduler.CounterStep` | carbon_sim_git/common/system/thread_manager.cc:579-603 | Only a spawn gives out a thread id, and always the next one. |
| `ThreadScheduler.QueueStep` | carbon_sim_git/common/system/round_robin_thread_scheduler.cc:18-25 | A yield or an exit takes the front of its queue away; everything else only adds at the end of a queue. |
| `ThreadScheduler.BoundedWaiting` | carbon_sim_git/common/system/round_robin_thread_scheduler.cc:18-25 | Over every run each yield or exit on its tile brings a queued thread exactly one place forward and nothing takes it back, so it is at the front after as many of these as its position. |
| `ThreadMaster.Master.constructor` | carbon_sim_git/common/system/thread_manager.cc:20-71 | The tables start in the initial state of the protocol. |
| `ThreadMaster.Master.GetIdleThread` | carbon_sim_git/common/system/thread_manager.cc:711-736 | The first idle slot, or none if there is none. |
| `ThreadMaster.Master.IsCoreRunning` | carbon_sim_git/common/system/thread_manager.cc:902-918 | A running slot if and only if there is one. |
| `ThreadMaster.Master.IsCoreInitializing` | carbon_sim_git/common/system/thread_manager.cc:852-865 | Whether some slot is initialising. |
| `ThreadMaster.Master.GetNewThreadId` | carbon_sim_git/common/system/thread_manager.cc:579-603 | A new id; the table grows in time, so the index is always inside it. |
| `ThreadMaster.Master.PickSlot` | carbon_sim_git/common/system/thread_manager.cc:284-303 | Without a destination an idle slot of a tile other than 0 is found whenever there is one; only the inner loop is left on success, so it has the highest slot index that is idle anywhere, on the first tile reached from the requester among those with this slot idle. |
| `ThreadMaster.Master.PickTile` | carbon_sim_git/common/system/thread_manager.cc:287-301 | Of the tiles with a slot idle the first one reached from the requester, its own tile last and tile 0 never; none if and only if there is none. |
| `ThreadMaster.Master.SpawnThread` | carbon_sim_git/common/system/thread_manager.cc:269-325 | The handler is the spawn step into the slot chosen as said above, or the first idle one of the tile that was asked for; without a slot there was none. |
| `ThreadMaster.Master.ScheduleThread` | carbon_sim_git/common/system/thread_scheduler.cc:144-194 | The new thread is queued and marked, and started exactly when the tile was free and is not the requester's. |
| `ThreadMaster.Master.StartFront` | carbon_sim_git/common/system/thread_scheduler.cc:196-241 | Its assertions hold: there is a front and it is new. |
| `ThreadMaster.Master.OnThreadStart` | carbon_sim_git/common/system/thread_manager.cc:137-142 | The handler is the start step. |
| `ThreadMaster.Master.OnThreadExit` | carbon_sim_git/common/system/thread_manager.cc:185-203 | The handler is the exit step; its assertions hold. |
| `ThreadMaster.Master.DispatchFront` | carbon_sim_git/common/system/thread_scheduler.cc:113-131 | Starts or resumes the front as the step says; a resumed thread was not running. |
| `ThreadMaster.Master.Requeue` | carbon_sim_git/common/system/round_robin_thread_scheduler.cc:18-25 | The front goes to the end. |
| `ThreadMaster.Master.TakeFromQueue` | carbon_sim_git/common/system/thread_scheduler.cc:302-319 | Once around the queue: one entry is dropped, the order of the rest is kept, and it is found if and only if it was there. |
| `ThreadMaster.Master.MigrateThread` | carbon_sim_git/common/system/thread_scheduler.cc:284-365 | The handler is the migration step; its assertions hold. |
| `ThreadMaster.Master.ChooseTarget` | carbon_sim_git/common/system/thread_scheduler.cc:496-533 | The loop finds the tile of the step: the present one if the mask is empty or names it or all its tiles are busy, else the first one of the mask on which nobody runs. |
| `ThreadMaster.Master.CheckAffinityAndMigrate` | carbon_sim_git/common/system/thread_scheduler.cc:488-554 | The thread moves as the step says; the tile is the one the mask demands and the slot the first idle one there, if any, and both are reported. |
| `ThreadMaster.Master.YieldThread` | carbon_sim_git/common/system/thread_scheduler.cc:652-712 | The handler is the yield step; the next slot it reports is the new front; the tile it reports is the present one if the mask is empty or names it or somebody runs on all its tiles, else the first tile of the mask on which nobody runs, with the first idle slot there; this is the tile of the thread if and only if it stays or there is an idle slot, and otherwise the table keeps the thread where it was; the slot reported as next on the target is the thread itself if it can start there, and else what was next there before. |
| `ThreadMaster.YieldReply` | carbon_sim_git/common/system/thread_scheduler.cc:535-554 | The tile in the reply to a yield is the one the mask demands of the tiles before the yield; it is the tile of the thread afterwards if and only if the thread stays or there is an idle slot; otherwise its place is unchanged. |
| `ThreadMaster.YieldReplyWrong` | carbon_sim_git/common/system/thread_scheduler.cc:697-704 | A run of three requests after which a yield is answered with a tile the thread is not on. |
| `InitialStack.SimulatedMemory.Measure` | carbon_sim_git/pin/thread_start.cc:82-132 | Pass 1 gives exactly the bytes of the count, all pointers, all strings with terminators, both closing words and the auxiliary entry. |
| `InitialStack.SimulatedMemory.CopyStrings` | carbon_sim_git/pin/thread_start.cc:158-189 | Strings go down and pointers up without meeting; each pointer leads to a copy of its string; nothing below the first pointer or above the old top is written. |
| `InitialStack.SimulatedMemory.CopyArguments` | carbon_sim_git/pin/thread_start.cc:151-170 | Count, arguments and the word after them are in place. |
| `InitialStack.SimulatedMemory.CopyInitialStackData` | carbon_sim_git/pin/thread_start.cc:82-208 | For every argument vector and environment: reading back from the new stack pointer gives count, arguments and environment; it is a multiple of 256; the measured size covers everything, so the final assertion holds; nothing outside the new part of the stack is written. |
| `InitialStack.SimulatedMemory.CopyPointers` | carbon_sim_git/pin/thread_start.cc:151-206 | The bytes pass 2 uses from both ends are exactly those pass 1 measured. |
| `InitialStack.LayoutIsUnique` | carbon_sim_git/pin/thread_start.cc:87-91 | Memory holds at most one argument vector and environment for a stack pointer: what is read back is what was written. |
| `InitialStack.ClosedBy` | carbon_sim_git/pin/thread_start.cc:174-206 | The null pointer and the null auxiliary entry complete the layout without touching the rest. |
| `Words.LittleValue` | carbon_sim_git/pin/thread_start.cc:153-164 | Writing a machine word byte by byte and reading it back gives the word. |
| `Words.LittleAt` | carbon_sim_git/pin/thread_start.cc:153-164 | The byte at position i is digit i of the word to the base 256: least significant byte first. |
| `TaggedFrames.Receive` | carbon_sim_git/common/transport/socktransport.cc:576-617 | However the kernel cuts the stream, a receive returns exactly the first bytes asked for, or nothing and only if it may; a blocking request for no bytes is never satisfied. |
| `TaggedFrames.DecodeNext` | carbon_sim_git/common/transport/socktransport.cc:159-172 | A completely received message is the next one of its stream, and the rest of the stream follows it. |
| `TaggedFrames.FrameLayout` | carbon_sim_git/common/transport/socktransport.cc:431-441 | A frame is the length, the tag in two's complement and the payload, in this order. |
| `TaggedStream.DeliversNext` | carbon_sim_git/common/transport/socktransport.cc:149-216 | In every state that satisfies the invariant, the message handed on is the next one its sender wrote. |
| `TaggedStream.StepInv` | carbon_sim_git/common/transport/socktransport.cc:149-234 | Sending, receiving pieces, delivering, signalling and taking out keep the invariant. |
| `TaggedStream.Delivery` | carbon_sim_git/common/transport/socktransport.cc:401-455 | Over every interleaving and cutting: what a list has received from a sender is, in order and intact, the payloads of the first of its messages for that list, and all of them once its bytes have been taken. |
| `TaggedStream.NeverEmptyHanded` | carbon_sim_git/common/transport/socktransport.cc:351-366 | In every reachable state there is a payload for each receiver past the semaphore of a list, and no assertion of the update thread has failed. |
| `TaggedStream.TokensCounted` | carbon_sim_git/common/transport/socktransport.cc:180-202 | In every reachable state the barrier semaphore has been signalled once for each barrier message taken from any socket, and the update thread has ended if and only if it took a message to end it, which is then the only one and the last it took. |
| `TaggedStream.EndedForGood` | carbon_sim_git/common/transport/socktransport.cc:180-189 | Once it has ended it takes no message in any continuation. |
| `TaggedStream.ReachesSocket` | carbon_sim_git/common/transport/socktransport.cc:149-163 | Finding nothing, the update thread comes to every socket, the next ones first and then from the start. |
| `TaggedStream.UpdateThreadProgress` | carbon_sim_git/common/transport/socktransport.cc:159-172 | In every reachable state in the middle of a message the update thread can go on if and only if it has not got the whole header yet or the payload is not empty. |
| `TaggedStream.GoesOnIff` | carbon_sim_git/common/transport/socktransport.cc:576-617 | The same for every state that satisfies the invariant. |
| `TaggedStream.StuckForGood` | carbon_sim_git/common/transport/socktransport.cc:580-615 | Once the update thread has the header of an empty payload it is stuck in every continuation of the run, and no message from any socket is dealt with any more, whatever the senders and receivers do. |
| `TaggedStream.EmptyPayloadSticks` | carbon_sim_git/common/transport/socktransport.cc:580-615 | A run that gets there: one empty message and its header. |
| `FutexServer.FutexServer.constructor` | carbon_sim_git/common/system/syscall_server.cc:1178-1179 | Nobody waits and everybody runs. |
| `FutexServer.FutexServer.EnqueueWaiter` | carbon_sim_git/common/system/syscall_server.cc:1195-1199 | The core is stalled and appended. |
| `FutexServer.FutexServer.DequeueWaiter` | carbon_sim_git/common/system/syscall_server.cc:1201-1213 | The front is resumed and taken off, or there is nobody. |
| `FutexServer.FutexServer.WakeUp` | carbon_sim_git/common/system/syscall_server.cc:1155-1175 | Exactly the first min(val, length) waiters are released, front first, and every blocked core stays in exactly one queue. |
| `FutexServer.FutexServer.FutexWait` | carbon_sim_git/common/system/syscall_server.cc:959-979 | The core waits if and only if the word has the expected value; otherwise it is told so and nothing changes. |
| `FutexServer.FutexServer.FutexWake` | carbon_sim_git/common/system/syscall_server.cc:1004-1014 | The answer is the number released, and waiters are conserved for every core. |
| `FutexServer.FutexServer.FutexWakeOp` | carbon_sim_git/common/system/syscall_server.cc:1059-1105 | The word is written, the first val1 waiters of the first address are released, then on the condition the first val2 of what the second address has left; the queues keep exactly the rest, also for equal addresses; waiters are conserved. |
| `FutexServer.FutexServer.Requeue` | carbon_sim_git/common/system/syscall_server.cc:1133-1146 | With different addresses the first val2 waiters go to the end of the other queue in order; with equal ones the queue is rotated. |
| `FutexServer.FutexServer.FutexCmpRequeue` | carbon_sim_git/common/system/syscall_server.cc:1108-1153 | If the word matches, the first val1 waiters are released, the next val2 are appended to the second queue in order, and the answer is their total; with equal addresses the queue that is left is rotated val2 times and the answer counts these moves; if the word does not match nothing changes. |
| `FutexServer.RotateAt` | carbon_sim_git/common/system/syscall_server.cc:1133-1146 | Requeueing to the same address brings who stood n places behind the front, counted around, to the front, and so on. |
| `FutexServer.TakeTotal` | carbon_sim_git/common/system/syscall_server.cc:1155-1175 | A core released from a queue is in one queue less. |
| `FutexServer.MoveTotal` | carbon_sim_git/common/system/syscall_server.cc:1133-1146 | Moving waiters between two addresses changes for no core how often it waits. |
| `FutexServer.TakeInv` | carbon_sim_git/common/system/syscall_server.cc:1155-1175 | Releasing the front of a queue keeps each stalled core in exactly one queue. |
| `ConfigTree.EscapeText` | carbon_sim_git/common/config/config_file.cpp:190-201 | The loop computes the escaped text. |
| `ConfigTree.UnEscapeText` | carbon_sim_git/common/config/config_file.cpp:136-175 | The loop computes the unescaped text, with surrounding quotes removed. |
| `ConfigTree.EscapeRoundTrip` | carbon_sim_git/common/config/config_file.cpp:136-201 | Unescaping undoes escaping for every string, with or without the surrounding quotes. |
| `ConfigTree.EscapeIs` | carbon_sim_git/common/config/config_file.cpp:190-201 | Only backslashes and quotes are escaped, each by a backslash in front of it. |
| `ConfigTree.EscapesMean` | carbon_sim_git/common/config/config_file.cpp:150-165 | What a backslash yields in front of each letter that has a meaning, and in front of anything else. |
| `ConfigTree.FoldIs` | carbon_sim_git/common/config/section.cpp:59-61 | Without case sensitivity names are compared by their lower-case letters, else as they are. |
| `ConfigTree.NameRoundTrip` | carbon_sim_git/common/config/config_file.cpp:332-341 | A key name survives printing and reading if and only if it is printed in quotes or has no backslash. |
| `ConfigTree.ValueRoundTrip` | carbon_sim_git/common/config/config_file.cpp:344-351 | Every value survives printing and reading; it is quoted if and only if it does not read as a number. |
| `ConfigTree.SplitJoin` | carbon_sim_git/common/config/config.cpp:178-192 | Cutting a full path at the slashes gives back the section names. |
| `ConfigTree.FullPath` | carbon_sim_git/common/config/section.cpp:146-158 | The full path of a section is that of its parent, a slash and its name. |
| `ConfigTree.SubLast` | carbon_sim_git/common/config/section.cpp:45-53 | A section added under a greater name goes to the end and is found there. |
| `ConfigTree.KeyLast` | carbon_sim_git/common/config/section.cpp:56-70 | So does a key. |
| `ConfigTree.AddedKey` | carbon_sim_git/common/config/section.cpp:56-70 | After a key was added exactly one key goes by its name, with the new value; what goes by other names is as before. |
| `ConfigTree.EvalOrdered` | carbon_sim_git/common/config/section.cpp:45-70 | Whatever lines are read in whatever order, keys and subsections stay in order with each name once, all the way down. |
| `ConfigTree.SavedNameIsOneWord` | carbon_sim_git/common/config/config_file.cpp:332-341 | A name is printed with quotes around it, or it has no space and no quote in it. |
| `ConfigTree.EvalBelow` | carbon_sim_git/common/config/config_file.cpp:229-236 | Lines below a section change only that section, and in the way they would change a root. |
| `ConfigTree.EvalSave` | carbon_sim_git/common/config/config_file.cpp:320-365 | Reading the lines of a section into a new section of its name rebuilds the section. |
| `ConfigTree.RoundTrip` | carbon_sim_git/common/config/config_file.cpp:205-365 | For every tree with sorted entries and no slash in section names, saving it and evaluating the saved headers and key lines rebuilds the same tree if and only if every key name has a space or quote or no backslash. |
| `ConfigTree.EvalLengths` | carbon_sim_git/common/config/config_file.cpp:320-365 | A tree that was read holds no more characters in key names than the lines it was read from. |
| `ConfigTree.SaveLengths` | carbon_sim_git/common/config/config_file.cpp:205-318 | The saved lines of a tree read as fewer characters in key names than the tree has as soon as one of its names cannot be read back. |
| `TileMap.ComputeProcessToTileMapping` | carbon_sim_git/common/misc/config.cc:219-226 | The list of process p holds, in increasing order, exactly the tiles that leave remainder p. |
| `TileMap.GenerateTileMap` | carbon_sim_git/common/misc/config.cc:155-194 | Application tile t goes to process t modulo the number of processes, then one tile goes to each process in turn, and the last tile to process 0; a tile is in the list of a process if and only if the map says so. |
| `TileMap.AssignSpawners` | carbon_sim_git/common/misc/config.cc:178-187 | Each process gets exactly one thread-spawner tile, at the end of its list. |
| `TileMap.SpawnerIsLocal` | carbon_sim_git/common/misc/config.cc:120-126 | The tile number computed for the thread spawner of a process belongs to that process. |
| `TileMap.GetIndexFromTileID` | carbon_sim_git/common/misc/config.cc:265-274 | An index of the tile, or none if and only if the tile is not in the list. |
| `TileMap.TilePartition` | carbon_sim_git/common/misc/config.cc:265-287 | Every tile is in the list of exactly one process, the one the map names, at exactly one index; index and tile lookup undo each other. |
| `TileMap.SetStackBoundaries` | carbon_sim_git/pin/pin_config.cc:54-66 | The first area starts at the base, each is as long as its tiles need, and it ends where the next one begins. |
| `TileMap.SliceToTile` | carbon_sim_git/pin/pin_config.cc:69-81 | Any address inside the stack slice of a thread maps back to its tile. |
| `TileMap.TileOfAddress` | carbon_sim_git/pin/pin_config.cc:69-81 | Any address in the part of a tile is looked up as this tile, and any address outside the area of the process as none. |
| `TileMap.SlicesCover` | carbon_sim_git/pin/pin_config.cc:131-149 | The slices of the threads of a tile lie side by side from the start of its part. |
| `TileMap.ThreadComputed` | carbon_sim_git/pin/pin_config.cc:96-108 | For any address in the slice of a thread the lookup gives the number of the thread plus the sum of the lower limit and the offset in the slice, divided by the size of a thread stack. |
| `TileMap.ThreadRightIff` | carbon_sim_git/pin/pin_config.cc:96-108 | The lookup gives the right thread if and only if the lower limit and the offset in the slice together are less than one thread stack, because the lower limit is not subtracted. |
| `TileMap.ThreadNeverRight` | carbon_sim_git/pin/pin_config.cc:96-108 | Once the lower limit reaches the size of a thread stack the lookup is wrong for every address of every slice. |
| `TileMap.ThreadWrong` | carbon_sim_git/pin/pin_config.cc:96-108 | With one tile and two stacks of five bytes from address 100, the first address of thread 0 is taken for thread 20. |
| `TileMap.SlicesDisjoint` | carbon_sim_git/pin/pin_config.cc:131-149 | Slices of different processes, tiles or threads have no address in common. |
| `BitVectors.TestBit` | carbon_sim_git/common/misc/bit_vector.cc:112-120 | Masking with a shifted one tests that bit. |
| `BitVectors.Scan64` | carbon_sim_git/common/misc/bit_vector.cc:50-101 | The nested halving finds the least set bit of a word beyond the last position, or none if and only if there is none. |
| `BitVectors.FirstOfHalves` | carbon_sim_git/common/misc/bit_vector.cc:55-100 | Looking at the low half before the high half finds the first bit of the whole. |
| `BitVectors.BitVector.constructor` | carbon_sim_git/common/misc/bit_vector.h:35-42 | No bit is set and the search is at the start. |
| `BitVectors.BitVector.Reset` | carbon_sim_git/common/misc/bit_vector.cc:8-15 | No bit is set and the search is at the start. |
| `BitVectors.BitVector.At` | carbon_sim_git/common/misc/bit_vector.cc:122-131 | Whether the bit is a member. |
| `BitVectors.BitVector.Set` | carbon_sim_git/common/misc/bit_vector.cc:133-146 | Exactly this bit is added; the size stays the number of set bits. |
| `BitVectors.BitVector.Clear` | carbon_sim_git/common/misc/bit_vector.cc:148-161 | Exactly this bit is removed; the size stays the number of set bits. |
| `BitVectors.BitVector.Find` | carbon_sim_git/common/misc/bit_vector.cc:39-108 | The least set bit above the last position, or -1 if and only if there is none, after which the search starts over. |
| `BitVectors.BitVector.FindAll` | carbon_sim_git/common/misc/bit_vector.cc:17-37 | From a reset, repeated calls list exactly the set bits in increasing order and then -1. |

## Left out

- QueueModels.QueueModelHistoryTree.ComputeQueueDelay: 64-bit overflow of times, the M/G/1 formula and the utilisation counters; nodes are allocated where the source takes them from a pool of the same bound.
- QueueModels.QueueModelHistoryTree.ServeRequest: a processing time of zero, for which slots are empty and nothing is booked.
- InitialStack.SimulatedMemory.CopyInitialStackData: the 32-bit sum of pass 1 and a slice too small for the data; the source checks neither.
- SyncClients.RunFifo: counts requests in the order the server takes them; messages of different cores may overtake each other before that.
- SyncClients.StepInv: one thread per core, as the source assumes for its stalled-thread bookkeeping.
- ThreadScheduler.StepInv: tile 0 as a destination, joins, stalls on mutexes of multithreaded tiles, runs with migrations other than after a yield, LITE mode, process ids and the stored affinity masks.
- ThreadScheduler.Initial: the tiles of the thread spawners and of the master, which run from the start and are no destinations; the tiles here are the application tiles.
- ThreadMaster.Master.SpawnThread: after an assertion for a missing slot only the absence of a slot is stated.
- ThreadMaster.Master.IsCoreRunning: the error line printed for a second running thread, which the invariant excludes.
- TaggedStream.StepInv: checksums, connection setup, and the check that a terminate message comes from this process.
- FutexServer.FutexServer.FutexWakeOp: the decoding of the operand and of the comparison; both results are parameters.
- ConfigTree.RoundTrip: the grammar between the text and its lines, and the tree as shared objects with parent pointers; sections are values here, so aliasing is not captured.
- TileMap.GenerateTileMap: mappings computed by a network model, and LITE mode.
- TileMap.SlicesDisjoint: overflow of addresses.
- BitVectors.BitVector.Find: 32-bit overflow of positions; words are numbers with bitwise operations defined on them.
- Clock skew, simulated-time arithmetic and clock conversion in the clients and the thread manager.
- Condition variables on a futex word, networks, caches, power models, system-call marshalling and instrumentation.
