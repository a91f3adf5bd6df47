# Location utilities and camera callbacks: a verified model

This project models, in Dafny, the concurrent core of the GPS utility layer (`gps/utils`), the
adapter table of `gps/core`, and the two hardest pieces of the camera callback path, and proves what
they are for.

| files | what they model |
|---|---|
| `HeapSpec.dfy`, `LocHeap.dfy` | `LocHeap`: the pointer heap with cached sizes, pruned removal and push-only balancing; the linked nodes refine a tree, the tree refines a multiset priority queue |
| `TimerTime.dfy`, `TimerContainer.dfy` | timespec arithmetic and ranks with their integer widths; `LocTimerContainer`: the timerfd that follows the top of the heap, and the loop of an expiry |
| `TimerService.dfy`, `TimerServiceProofs.dfy`, `TimerServiceTheorems.dfy` | the whole timer service as a step system: clients, message thread, poll thread, clock, in every interleaving, with messages that find no memory; its invariant; its safety theorems, among them when a deleted client is used |
| `TimerServiceTerms.dfy` | what a client's calls mean in every run: the time and the container that a timer gets and keeps, and how it is ended |
| `TimerServiceFiring.dfy`, `TimerServiceLiveness.dfy` | that due timers fire: in one undisturbed round, and in every schedule of the two threads from any reachable state, unless one of their messages was lost; runs in which something else happens |
| `LocTimer.dfy` | the same service as an object with the source's fields, over the linked heaps; each method refines one step |
| `LinkedList.dfy`, `MsgQ.dfy` | the doubly linked list, and the blocking queue on top of it as monitor steps with a condition variable |
| `LocThread.dfy`, `LocThreadDelegate.dfy` | `LocThreadDelegate`: the reference count shared by a parent and the thread it spawns, in every interleaving; and the object with the source's methods as sequential code that the other thread may interrupt anywhere |
| `LocApiBase.dfy` | the adapter table, for any capacity, and the event masks it sends |
| `PreviewCallback.dfy` | `sendPreviewCallback`: stride removal, and the path that copies nothing |
| `QCameraQueue.dfy`, `CbNotifier.dfy`, `QCameraCbNotifier.dfy` | `QCameraCbNotifier` with its data queue, command queue and semaphore, as a step system and as an object that refines it |
| `FrameRelease.dfy` | the callers of the notifier, such as `sendPreviewCallback`, and the notifier together: who releases the memory of a callback |

## How the pieces fit

Objects that the source updates in place are classes whose methods are proved against functions of
their old state: `LocHeapNode` against trees, `List` against sequences, `MsgQueue`,
`QCameraCbNotifier` and `LocTimerService` against the step functions of their protocols.
The theorems are then about those functions, over every run: `IsRun` (or `Feasible`) allows the
threads to step in any order.

What is one step: an operation that the source runs under one lock; each of the three statements of
`LocTimerContainer::expire()`; in a Push or Remove message the change of the heap, then each of the two
system calls of `updateSoonestTime()`, then the deletion of the delegate; in an Expire message each pop
with the reading of `mClient`, then the `stop()`, then the callback, and at the end the same two system
calls; in `msg_q_rcv` what lies between taking the mutex and waiting; in
`LocThreadDelegate` every single access to a shared field; in `notifyCallback` each of the test, the
enqueue, the sending and the post.

System calls are abstract state: a timerfd is the time it is armed with, epoll is a flag, the clock is a
parameter that moves forward. Deleting an object takes it out of a map, or clears its `live` flag; a step
that would follow a pointer to a deleted object raises `fault` and ends the run. The outcomes of
`malloc` (in the timer service that of each message sent), `mGetMemory`, `pthread_create` and
`notifyCallback`, the waiters that a signal wakes, and spurious wake-ups are parameters that may take
any value.

## What turned out not to hold as written

* `LocTimer.cpp:366-369`: the comment says that an expiry pops what is older than now. The first pop
  is unconditional, so an Expire message that arrives after a Remove can fire a timer early.
  `TimerServiceFiring.TimerMayFireEarly` is such a run; `TimerContainer.BatchPopsOnlyDue` says exactly when it
  does not happen: the heap is empty or its top is due.
* `LocTimer.cpp:520-532`: `expire()` stops whatever timer its client runs by then, so a client that stops and starts
  again after `mClient` was read is called back for the new timer at once (`TimerServiceFiring.RestartMayFireEarly`).
  These are the only two ways (`TimerServiceTheorems.TimesOutEarlyExactly`).
* `LocTimer.cpp:486-489`: the comment says that after `destroyLocked()` the callback is not called on a dead client.
  It can be (`TimerServiceFiring.DeletedClientIsUsed`): exactly when the client is deleted after `expire()` has read
  `mClient` and before its last use of it (`TimerServiceTheorems.FaultsExactly`). Nothing else dangles.
* `MsgTask.cpp:76-78`: `sendMsg()` ignores the result of `msg_q_snd`, and the message is lost when `linked_list_add` finds
  no memory. A lost Push leaves a timer that never stands in its heap, although `start()` returned true; a lost Remove
  leaves a delegate that is never deleted (`TimerServiceTheorems.QuietMeansTicking`, if and only if); a lost Expire leaves
  its container unpolled, exactly if the fd was out of the poll set then and has not been added since
  (`TimerServiceTheorems.NoLostExpiry`), and due timers stay in it (`TimerServiceFiring.LostExpireStrands`).
* `LocThread.h:75-77`: the runnable is said to be the client's to delete when `start()` fails, and LocThread's when it succeeds.
  The first holds exactly when no thread was created (`LocThread.FailedStartLeavesRunnable`): a thread that
  finishes before `create()` asks `isRunning()` makes `start()` fail after the runnable was deleted
  (`LocThread.FailedStartMayHaveDeleted`). The second holds exactly when the thread read `mRunnable` before `stop()` cleared it
  (`LocThread.EndsFreedOnce`); otherwise nobody deletes it (`LocThread.EarlyStopLeaksRunnable`).
* `LocTimer.cpp:289-294`: the branch that disarms the fd of an empty heap is not reached; a heap that
  becomes empty leaves its fd armed (`TimerContainer.OnlyNewTopsArm` for all callers, `TimerContainer.RemoveOfLastLeavesFd`).
* `LocTimer.cpp:509`: a 64-bit difference of seconds is cut to an `int`. On times below 2^31 seconds `ranks` is
  the time order (`TimerTime.RanksIsTimeOrder`); for 64-bit times in general it is right exactly when the cut leaves the
  sign, or leaves 0 and the nanoseconds happen to agree (`TimerTime.RanksRightExactly`).
* `QCameraCmdThread.cpp:130-158`: when `sendCmd` finds no memory, a queued callback may stay behind a
  sleeping thread. With nothing flushed, the thread sleeps over exactly as many callbacks as commands were lost
  (`CbNotifier.StrandsWhatWasLost`); with none lost, over none, whatever is flushed (`CbNotifier.NeverStranded`).
* `QCameraCmdThread.cpp:195-211`: when the EXIT command finds no memory in the queue, `sendCmd` reports NO_ERROR all the same
  and `exit()` joins a thread that goes on: the thread ends if and only if some EXIT found memory
  (`CbNotifier.ExitReturnsExactly`).
* `QCamera2HWICallbacks.cpp:715-718` and `724-727`: a handle that `mGetMemory` returns without data is never released, and
  no other (`PreviewCallback.SendPreviewCallback`).
* `QCamera2HWICallbacks.cpp:2610-2611` with `774-781`: when that `malloc` fails, `notifyCallback` returns an error for a
  callback that it keeps, so its memory is released twice, by the caller and by `release_cb`. In all other cases it is
  released exactly once (`FrameRelease.ReleasedOnceExactly`).
* `QCamera2HWICallbacks.cpp:2524-2532`: the snapshot counter has 32 bits. SNAPSHOT_DONE is not raised again in a session
  before 2^32 more snapshots are delivered (`CbNotifier.DoneOncePerSession`), and then it can be (`CbNotifier.DoneAgainAfterWrap`).

## Model

| member | source | states |
|---|---|---|
| HeapSpec.PushAdds | gps/utils/LocHeap.cpp:107-124 | push keeps the heap order and every cached size, and adds exactly the one element, for any strict weak order |
| HeapSpec.PushTop | gps/utils/LocHeap.cpp:107-111 | the new element is on top exactly when it outranks the old top |
| HeapSpec.PopRemovesTop | gps/utils/LocHeap.cpp:134-164 | pop takes out exactly the top, which no element outranks, and keeps order and sizes |
| HeapSpec.RemoveComplete | gps/utils/LocHeap.cpp:170-193 | remove finds an object exactly when it is in the heap, although it prunes by rank; then it takes out exactly that object and keeps order and sizes |
| HeapSpec.RemoveSound | gps/utils/LocHeap.cpp:170-193 | whatever the order, what remove reports as removed was there once more before, and sizes stay exact |
| HeapSpec.RemoveMissesWithoutOrder | gps/utils/LocHeap.cpp:176 | the pruning needs a transitive ranking: with one that is not, an object that is in an ordered heap can be missed |
| HeapSpec.PushThenRemove | gps/utils/LocHeap.cpp:107-193 | removing what was just pushed gives back the same elements |
| HeapSpec.CheckNodesExact | gps/utils/LocHeap.cpp:195-220 | checkNodes is true exactly when every size is right and no descendant outranks an ancestor |
| HeapSpec.CheckNodesIsHeap | gps/utils/LocHeap.cpp:197-220 | what checkNodes compares, child by child, is the heap property |
| HeapSpec.BuildIsBalanced | gps/utils/LocHeap.cpp:101-124 | a heap built by n pushes is balanced at every node and its height is floor(log2 n)+1 |
| HeapSpec.BalancedHeight | gps/utils/LocHeap.cpp:107-124 | a tree balanced at every node has logarithmic height |
| HeapSpec.PushKeepsBalance | gps/utils/LocHeap.cpp:118-122 | push keeps 0 <= left - right <= 1 at every node |
| HeapSpec.PushNoWorse | gps/utils/LocHeap.cpp:118-123 | after any history, push leaves no node with an imbalance above 1 and above what it was |
| LocHeap.LocHeapNode.Swap | gps/utils/LocHeap.cpp:87-92 | the two nodes exchange their data and nothing else |
| LocHeap.LocHeapNode.Push | gps/utils/LocHeap.cpp:107-124 | the linked nodes become the pushed tree, with exactly the new node added to them |
| LocHeap.LocHeapNode.Pop | gps/utils/LocHeap.cpp:134-164 | the node that is detached is a leaf holding the old top, all other nodes stay in the tree, and they form the popped tree |
| LocHeap.LocHeapNode.Remove | gps/utils/LocHeap.cpp:170-193 | the linked nodes become the tree without the object, or nothing changes |
| LocHeap.LocHeapNode.CheckNodes | gps/utils/LocHeap.cpp:197-220 | the recursive check on the linked nodes is CheckNodes of the tree |
| LocHeap.LocHeap.Push | gps/utils/LocHeap.cpp:228-235 | push on the heap object |
| LocHeap.LocHeap.Peek | gps/utils/LocHeap.cpp:237-243 | the data on top, or NULL |
| LocHeap.LocHeap.Pop | gps/utils/LocHeap.cpp:245-254 | returns the old top, or NULL on an empty heap |
| LocHeap.LocHeap.Remove | gps/utils/LocHeap.cpp:256-267 | returns the object itself when it was found, else NULL and nothing changes |
| TimerTime.RanksIsTimeOrder | gps/utils/LocTimer.cpp:503-517 | on normalised times whose seconds differ by less than 2^31, ranks is positive exactly for the earlier time and 0 exactly for equal times |
| TimerTime.RanksRightExactly | gps/utils/LocTimer.cpp:503-517 | for any normalised times, with 64-bit seconds: ranks agrees with the time order if and only if cutting the difference of seconds to 32 bits leaves its sign, or 0 and nanoseconds that agree |
| TimerTime.RanksWrongFarApart | gps/utils/LocTimer.cpp:509 | 2^31 seconds apart the earlier time ranks lower, 2^32 seconds apart both rank the same |
| TimerTime.FutureTime | gps/utils/LocTimer.cpp:551-558 | start() computes now + timeOutInMs to the nanosecond, normalised, with no overflow of tv_nsec in 32 bits |
| TimerContainer.RanksIsStrictWeakOrder | gps/utils/LocTimer.cpp:503-517 | ranks is the strict weak order that the heap needs |
| TimerContainer.TopIsSoonest | gps/utils/LocTimer.cpp:271-274 | no timer of the heap is due before its top |
| TimerContainer.BatchConserves | gps/utils/LocTimer.cpp:367-372 | an expiry hands out some of the heap's timers and leaves exactly the others, still a heap |
| TimerContainer.BatchLeavesLater | gps/utils/LocTimer.cpp:365-372 | every timer that an expiry leaves is strictly later than now |
| TimerContainer.BatchOrder | gps/utils/LocTimer.cpp:365-372 | the delegates come out in order of time, and all but the first are due |
| TimerContainer.BatchPopsOnlyDue | gps/utils/LocTimer.cpp:366-367 | an expiry pops only due timers if and only if the heap is empty or its top is due |
| TimerContainer.BatchIsTheDue | gps/utils/LocTimer.cpp:365-372 | with a due top, a timer is popped if and only if it is due |
| TimerContainer.UpdateFromNullArms | gps/utils/LocTimer.cpp:281-306 | called with NULL, the update leaves the fd polled and armed with the top's time |
| TimerContainer.PushKeepsArmed | gps/utils/LocTimer.cpp:317-321 | a Push message keeps an armed container armed with its soonest time |
| TimerContainer.RemoveKeepsArmed | gps/utils/LocTimer.cpp:334-343 | so does a Remove message |
| TimerContainer.OnlyNewTopsArm | gps/utils/LocTimer.cpp:281-374 | a Push arms the fd exactly if its timer goes before the top, a Remove exactly if it takes the top and leaves others, an expiry exactly if it leaves any; with that timer's time; none of them disarms it |
| TimerContainer.RemoveOfLastLeavesFd | gps/utils/LocTimer.cpp:289-294 | removing the last timer leaves the fd as it was |
| TimerContainer.LocTimerContainer.UpdateSoonestTime | gps/utils/LocTimer.cpp:281-306 | the object's fd state follows SoonestUpdated in every branch |
| TimerContainer.LocTimerContainer.Push | gps/utils/LocTimer.cpp:317-321 | the Push message on the linked heap and the fd |
| TimerContainer.LocTimerContainer.Remove | gps/utils/LocTimer.cpp:334-343 | the Remove message on the linked heap and the fd |
| TimerContainer.LocTimerContainer.PopIfOutRanks | gps/utils/LocTimer.cpp:383-390 | pops the top exactly when there is one and now does not outrank it |
| TimerContainer.LocTimerContainer.Expire | gps/utils/LocTimer.cpp:360-374 | the loop hands out exactly the batch, in its order, and leaves its rest |
| TimerServiceProofs.StepKeepsInv | gps/utils/LocTimer.cpp:281-580 | every step of every thread, whatever messages are lost, keeps the invariant |
| TimerServiceProofs.RunKeepsInv | gps/utils/LocTimer.cpp:281-580 | hence it holds in every state of every run |
| TimerServiceTheorems.NoLostExpiry | gps/utils/LocTimer.cpp:281-381 | while a container has timers and nothing of it is under way in either thread or the queue, its fd is polled and armed with exactly the soonest time if and only if no Expire message was lost with the fd out of the poll set since it was last added |
| TimerServiceTheorems.DueTimerIsSeen | gps/utils/LocTimer.cpp:446-470 | then epoll_wait reports a due timer, under the same condition |
| TimerServiceTheorems.NothingDangles | gps/utils/LocTimer.cpp:327-350 | no heap node, queued or handled message, or client refers to a deleted delegate, and mTimer and mClient mirror each other |
| TimerServiceTheorems.FaultsExactly | gps/utils/LocTimer.cpp:520-532 | a step of a run follows a dangling pointer if and only if it is the message thread's and the client that expire() holds was deleted while it was held |
| TimerServiceTheorems.OnlyDeleteTakes | gps/utils/LocTimer.cpp:539-545 | a client held by the message thread goes away by its own destructor only, and its number is not used again meanwhile |
| TimerServiceTheorems.EachTimerEndsOnce | gps/utils/LocTimer.cpp:519-580 | for each successful start() exactly one of a successful stop() and a time-out ends the timer, when it loses its client; each time-out is called back once; the delegate is deleted at most once, exactly when it is no longer live |
| TimerServiceTheorems.LockCountsItsHolders | gps/utils/LocSharedLock.h:48-56 | mRef is one for the live LocTimer plus one for each live delegate, so the lock is deleted at the last drop and never while a holder is left |
| TimerServiceTheorems.QuietMeansTicking | gps/utils/LocTimer.cpp:484-501 | with no message left, a stopped delegate is left if and only if its Remove was lost, a running one is in its heap if and only if its Push was not lost, and nothing else is in a heap |
| TimerServiceTheorems.ExpiryPopsItsBatch | gps/utils/LocTimer.cpp:360-374 | whatever clients do meanwhile is queued behind: an Expire message pops exactly the batch of the heap it began with |
| TimerServiceTheorems.TimesOutEarlyExactly | gps/utils/LocTimer.cpp:366-372 | a timer popped is timed out before its time if and only if it was popped first from a heap whose top was not due; and one that was not popped only after the popped one had ended |
| TimerServiceTerms.TimerKeepsItsTerms | gps/utils/LocTimer.cpp:474-565 | a start() that finds no timer running gives its client a new one, due timeOutInMs after now and in the container that wakeOnExpire names; in every later state, every delegate, heap node and message of that timer has that time and that container; a start() that finds one running changes nothing |
| TimerServiceTerms.StopEnds | gps/utils/LocTimer.cpp:484-580 | stop() and the destructor end the timer that their client runs, with its Remove queued or lost, and leave every other timer as it is |
| TimerServiceTerms.EveryEventIsHandled | gps/utils/LocTimer.cpp:446-470 | every container that epoll_wait reports is disarmed, taken out of the poll set, and gets its Expire message |
| TimerServiceFiring.DueTimersFire | gps/utils/LocTimer.cpp:355-381 | from a quiet state with a due top in a container, the fd is readable unless an Expire message was lost, and then one round of the two threads times out a live timer if and only if it is in that container and due |
| TimerServiceFiring.DueTimersAreReached | gps/utils/LocTimer.cpp:355-381 | there are such states |
| TimerServiceLiveness.StepLowersRank | gps/utils/LocTimer.cpp:310-381 | every step of the message thread or the poll thread lowers a rank of the state |
| TimerServiceLiveness.EveryScheduleEnds | gps/utils/LocTimer.cpp:310-381 | with clients and clock standing still, no schedule of the two threads is longer than that rank |
| TimerServiceLiveness.SomeScheduleEnds | gps/utils/LocTimer.cpp:310-381 | there is a schedule that runs until neither thread can step |
| TimerServiceLiveness.NothingDueIsLeft | gps/utils/LocTimer.cpp:310-381 | then a delegate left is without client exactly if its Remove was lost; a running one is not yet due, or its Push was lost, or its container is unpolled by a lost Expire |
| TimerServiceLiveness.DueTimersEnd | gps/utils/LocTimer.cpp:310-381 | from any reachable state, when any schedule of the two threads has ended, every running timer that was due has timed out and been called back, and is deleted, but for the messages that were lost |
| TimerServiceLiveness.OnlyOldFaults | gps/utils/LocTimer.cpp:520-532 | the two threads by themselves never use a deleted client, unless they hold one when the clients come to rest |
| TimerServiceFiring.WakeSteps | gps/utils/LocTimer.cpp:446-470 | the poll thread's three statements and the delivery of its message can run and keep the invariant |
| TimerServiceFiring.FinishFires | gps/utils/LocTimer.cpp:360-374 | alone, the message thread finishes its message, and times out exactly the client it holds and the running clients of its batch |
| TimerServiceFiring.TimerMayFireEarly | gps/utils/LocTimer.cpp:367 | there is a run in which a timer is timed out before its time |
| TimerServiceFiring.RestartMayFireEarly | gps/utils/LocTimer.cpp:520-532 | there is a run in which a timer is called back before its time and before its Push is delivered |
| TimerServiceFiring.LostExpireStrands | gps/utils/MsgTask.cpp:76-78 | there is a run that ends quietly with a due timer in its heap, because the Expire message was lost |
| TimerServiceFiring.DeletedClientIsUsed | gps/utils/LocTimer.cpp:520-532 | there is a run in which expire() uses a client that has been deleted |
| LocTimer.LocTimerService.constructor | gps/utils/LocTimer.cpp:207-226 | the service starts in the initial state |
| LocTimer.LocTimerService.Start | gps/utils/LocTimer.cpp:547-565 | start() succeeds exactly when no timer was running; then the client's timer is due timeOutInMs from now in the container that wakeOnExpire names, and its Push is sent there or lost; else nothing changes; it is the start step |
| LocTimer.LocTimerService.StopTimer | gps/utils/LocTimer.cpp:567-580 | stop() is the stop step, leaves the client without a timer, and succeeds exactly when one was running |
| LocTimer.LocTimerService.DeleteTimer | gps/utils/LocTimer.cpp:539-545 | the destructor is the delete step: it stops and drops the lock, and the client is gone |
| LocTimer.LocTimerService.Deliver | gps/utils/LocTimer.cpp:310-376 | one message taken off the queue and, for Push and Remove, brought to its heap is the Deliver step |
| LocTimer.LocTimerService.ExpireRound | gps/utils/LocTimer.cpp:367-373 | one pop with the reading of mClient, or the end of the loop, is the expire step |
| LocTimer.LocTimerService.StopClient | gps/utils/LocTimer.cpp:526 | the stop() of expire() is its step |
| LocTimer.LocTimerService.CallClient | gps/utils/LocTimer.cpp:530 | the callback of expire() is its step |
| LocTimer.LocTimerService.UpdateNext | gps/utils/LocTimer.cpp:281-306 | each of the two system calls of updateSoonestTime() is its step |
| LocTimer.LocTimerService.DeleteRemoved | gps/utils/LocTimer.cpp:345 | the deletion at the end of a Remove message, with the lock dropped, is its step |
| LocTimer.LocTimerService.Wake | gps/utils/LocTimer.cpp:446-463 | the return of epoll_wait is the wake step |
| LocTimer.LocTimerService.PollNext | gps/utils/LocTimer.cpp:377-380 | the poll thread's next statement is the poll step |
| LinkedList.List.Add | gps/utils/linked_list.c:110-155 | on success the new element stands at the head and the rest is unchanged; the error cases change nothing |
| LinkedList.List.Remove | gps/utils/linked_list.c:162-204 | takes the oldest datum off the tail and frees its element |
| LinkedList.List.Empty | gps/utils/linked_list.c:211-223 | true exactly when there is no datum |
| LinkedList.List.Flush | gps/utils/linked_list.c:230-260 | frees every element once and calls the dealloc of exactly those added with one, in order |
| LinkedList.List.Search | gps/utils/linked_list.c:267-327 | finds the first match from the head; removal unlinks exactly it and deallocates its datum exactly when it was not copied out |
| LinkedList.FifoOrder | gps/utils/linked_list.c:110-204 | over any adds and removes, each of which is Applied as for Add and Remove, what was handed out followed by what is left is what was added, in order |
| MsgQ.InvStep | gps/utils/msg_q.c:185-336 | every monitor step keeps the protocol's invariant, with any number of receivers and spurious wake-ups |
| MsgQ.NoLostWakeup | gps/utils/msg_q.c:201-260 | while somebody waits un-notified, at least as many receivers are awake as there are messages |
| MsgQ.AwakeReceiversDrain | gps/utils/msg_q.c:256-264 | letting each awake receiver run once empties the queue |
| MsgQ.UnblockedExactly | gps/utils/msg_q.c:306-336 | the queue is unblocked exactly if unblock has been called in the run, and exactly the first call reports success |
| MsgQ.UnblockedForGood | gps/utils/msg_q.c:306-336 | after a call of unblock, in any continuation, nobody waits, those who waited are awake, nothing is accepted, and the receivers inside only get fewer |
| MsgQ.NothingAcceptedBehind | gps/utils/msg_q.c:196-201 | what a run with an unblock in it has accepted, it had accepted before it |
| MsgQ.UnblockedReturns | gps/utils/msg_q.c:185-268 | after a call of unblock every receive call that runs returns, every one that begins is refused, and so is every send, which changes nothing |
| MsgQ.ReceiveFailsOnlyUnblocked | gps/utils/msg_q.c:249-268 | a receive on a valid queue fails exactly when the queue is unblocked and it is on entry or finds nothing |
| MsgQ.SendSucceedsExactly | gps/utils/msg_q.c:185-221 | a send succeeds exactly with a message, with memory and before any unblock; then the message is the newest; the signal is given without memory too |
| MsgQ.FlushTakesAll | gps/utils/msg_q.c:276-299 | a flush empties the queue, and every message in it leaves as flushed, in order |
| MsgQ.Conservation | gps/utils/msg_q.c:185-299 | in every run, what was accepted is what is queued plus what was delivered or flushed, each once and in order |
| MsgQ.AcceptedIsHistory | gps/utils/msg_q.c:185-221 | a message is accepted exactly by the sends that report success |
| MsgQ.NoFlushNoLoss | gps/utils/msg_q.c:185-269 | without a flush, every message that leaves the queue is handed to one receiver |
| MsgQ.ReturnIsDelivery | gps/utils/msg_q.c:262-268 | a receive succeeds exactly when it takes a message, and returns exactly the one that leaves the queue for it |
| MsgQ.MsgQueue.Snd | gps/utils/msg_q.c:185-221 | the send on the linked list is the send step, with its return value |
| MsgQ.MsgQueue.RcvEnter | gps/utils/msg_q.c:247-262 | a receive up to its return or first wait |
| MsgQ.MsgQueue.RcvResume | gps/utils/msg_q.c:257-268 | a receive after a wake-up: it waits again or takes the oldest message |
| MsgQ.MsgQueue.Flush | gps/utils/msg_q.c:276-299 | the flush empties the linked list |
| MsgQ.MsgQueue.Unblock | gps/utils/msg_q.c:306-336 | the flag is set, and the first time everybody who waits is woken; it is the unblock step |
| LocThread.StepKeepsInv | gps/utils/LocThread.cpp:65-200 | every access of either thread keeps the count equal to the references held |
| LocThread.NeverUsedAfterFree | gps/utils/LocThread.cpp:151-200 | in every interleaving the delegate is freed at most once and not touched afterwards, and so is the runnable |
| LocThread.EndsFreedOnce | gps/utils/LocThread.cpp:65-200 | there is no deadlock; a finished run has freed the delegate exactly once, and the runnable exactly if the thread read it in time |
| LocThread.StopTerminates | gps/utils/LocThread.cpp:128-200 | once mRunnable is cleared, both threads end after a bounded number of steps |
| LocThread.RunsUntilStopped | gps/utils/LocThread.cpp:177-193 | in every run the thread has left its loop exactly if the last run() returned false or it found mRunnable cleared: while that is set and every run() returned true, it goes on; prerun() and postrun() are omitted only once it is cleared |
| LocThread.NoRunAfterStop | gps/utils/LocThread.cpp:123-137 | once mRunnable is cleared no further prerun(), run() or postrun() begins |
| LocThread.JoinWaits | gps/utils/LocThread.cpp:128-144 | stop() has cleared mRunnable when it comes to the join, and whenever the client lets go of a joinable thread's object that thread has ended |
| LocThread.CreateReturnsNull | gps/utils/LocThread.cpp:109-121 | create() returns NULL exactly when no thread was created or it has already cleared mRunnable |
| LocThread.FailedStartLeavesRunnable | gps/utils/LocThread.h:75-77 | after a failed start the runnable is still there exactly when no thread was created |
| LocThread.FailedStartMayHaveDeleted | gps/utils/LocThread.cpp:114-116 | there is a run in which create() returns NULL after the thread deleted the runnable |
| LocThread.EarlyStopLeaksRunnable | gps/utils/LocThread.cpp:177-195 | there is a run in which create() succeeds and nobody deletes the runnable |
| LocThreadObject.StepsKeep | gps/utils/LocThread.cpp:65-200 | whatever steps the other thread takes in between, the invariant holds and a thread finds its place, its flags and what it cleared as it left them |
| LocThreadObject.LocThreadDelegate.Create | gps/utils/LocThread.cpp:65-121 | interrupted anywhere: the object is handed out, or let go; without a thread it is freed at once with the runnable kept, and with one that has finished it returns NULL |
| LocThreadObject.LocThreadDelegate.Stop | gps/utils/LocThread.cpp:128-144 | interrupted anywhere, stop() returns; a joinable thread has then ended, the object is freed exactly once, and the runnable exactly if the thread read it |
| LocThreadObject.LocThreadDelegate.Bye | gps/utils/LocThread.cpp:51 | bye() lets go of the object; of a joinable thread after its end |
| LocThreadObject.LocThreadDelegate.Destroy | gps/utils/LocThread.cpp:151-171 | in either thread, interrupted anywhere: the wait for the mutex ends, the count is above 0 as the comment hopes, and the thread lets go without disturbing the other |
| LocThreadObject.LocThreadDelegate.ThreadMain | gps/utils/LocThread.cpp:173-200 | interrupted anywhere: run() is called for each result up to the first false, or fewer times if the loop found mRunnable cleared; the thread deletes the runnable exactly if it read one, and lets go |
| LocApiBase.TableIsSet | gps/core/LocApiBase.cpp:159-200 | after any adds and removes the table is duplicate-free and holds exactly the abstract set, adds being dropped only when it is full |
| LocApiBase.AddedTakesFirstFree | gps/core/LocApiBase.cpp:159-169 | a new adapter takes the first free entry and leaves the others where they are; a full table or one that holds it already stays as it is |
| LocApiBase.RemovedTakesExactlyOne | gps/core/LocApiBase.cpp:169-191 | the swap with the last entry loses exactly the one adapter |
| LocApiBase.OrOfBits | gps/core/LocApiBase.cpp:137-144 | a bit is in the mask exactly when some adapter has it |
| LocApiBase.EvtMaskIgnoresOrder | gps/core/LocApiBase.cpp:137-144 | tables with the same adapters send the same mask |
| LocApiBase.LocApiBase.GetEvtMask | gps/core/LocApiBase.cpp:137-144 | the OR of all adapters' masks without the excluded bits |
| LocApiBase.LocApiBase.AddAdapter | gps/core/LocApiBase.cpp:159-169 | adds at the first free entry and sends the adapter's own mask, or changes nothing when it is there or the table is full |
| LocApiBase.LocApiBase.RemoveAdapter | gps/core/LocApiBase.cpp:171-205 | the nested loops end and leave the table without the adapter; one call follows if it was there: close exactly if nobody is left, else a mask with exactly the bits that somebody left has and that are not excluded |
| PreviewCallback.EqualSizesMeanPacked | camera/QCamera2/HAL/QCamera2HWICallbacks.cpp:704-712 | for planes no smaller than what they hold, the totals agree exactly when there is no padding |
| PreviewCallback.ZeroCopyAgrees | camera/QCamera2/HAL/QCamera2HWICallbacks.cpp:712-720 | when the totals agree, the camera's buffer is byte for byte the packed frame, for every width and height |
| PreviewCallback.NarrowPlanesCanAgree | camera/QCamera2/HAL/QCamera2HWICallbacks.cpp:712 | with planes smaller than that the totals can agree by accident |
| PreviewCallback.LumaAt | camera/QCamera2/HAL/QCamera2HWICallbacks.cpp:729-736 | byte c of row r of the first plane is byte c of row r in the camera's buffer |
| PreviewCallback.ChromaAt | camera/QCamera2/HAL/QCamera2HWICallbacks.cpp:738-748 | the same for the second plane, which follows the whole of the first on both sides |
| PreviewCallback.EachByteOnce | camera/QCamera2/HAL/QCamera2HWICallbacks.cpp:729-748 | every byte of the copy lies in exactly one row, at exactly one column |
| PreviewCallback.RoomyCovers | camera/QCamera2/HAL/QCamera2HWICallbacks.cpp:729-748 | with planes no smaller than what they hold, every read stays inside the camera's buffer |
| PreviewCallback.RoomyHoldsFrame | camera/QCamera2/HAL/QCamera2HWICallbacks.cpp:677-748 | with such planes a buffer as large as they add up to is all that sendPreviewCallback asks for |
| PreviewCallback.PaddedFrame | camera/QCamera2/HAL/QCamera2HWICallbacks.cpp:721-749 | there is a frame with padding that meets this |
| PreviewCallback.SentIsPacked | camera/QCamera2/HAL/QCamera2HWICallbacks.cpp:712-763 | with such planes either path sends exactly the packed frame, or no frame if it has no bytes |
| PreviewCallback.SentIsPlanar | camera/QCamera2/HAL/QCamera2HWICallbacks.cpp:682-720 | a YV12 frame is sent with all its three planes, byte for byte and each behind those before it; a frame of an unknown format is not sent |
| PreviewCallback.CopyRows | camera/QCamera2/HAL/QCamera2HWICallbacks.cpp:729-736 | a copy loop writes exactly the rows, in place, with every offset inside int32_t |
| PreviewCallback.StripPadding | camera/QCamera2/HAL/QCamera2HWICallbacks.cpp:721-749 | the two loops together fill the application's buffer with the packed frame |
| PreviewCallback.Sizes | camera/QCamera2/HAL/QCamera2HWICallbacks.cpp:677-711 | the two buffer sizes for each format, by its planes, without overflow of int |
| PreviewCallback.SendPreviewCallback | camera/QCamera2/HAL/QCamera2HWICallbacks.cpp:633-784 | the error returns send nothing; else the bytes of the path taken are sent, the packed frame whenever the planes are no smaller than what they hold, all three planes of a YV12 frame, nothing of an unknown format; and the handle that mGetMemory returned is released exactly once, here if the notification failed, else by release_cb, unless it came without data: then never |
| CameraQueue.QCameraQueue.Enqueue | camera/QCamera2/util/QCameraQueue.cpp:137-161 | at the tail while active, else refused |
| CameraQueue.QCameraQueue.EnqueueWithPriority | camera/QCamera2/util/QCameraQueue.cpp:174-204 | at the head while active, else refused |
| CameraQueue.QCameraQueue.Dequeue | camera/QCamera2/util/QCameraQueue.cpp:250-279 | takes the entry at either end, or nothing |
| CameraQueue.QCameraQueue.Flush | camera/QCamera2/util/QCameraQueue.cpp:291-320 | releases every entry once, in order, and shuts the queue |
| CameraQueue.QCameraQueue.FlushNodes | camera/QCamera2/util/QCameraQueue.cpp:333-365 | releases exactly the matching entries and keeps the others in order |
| CameraQueue.FlushSplits | camera/QCamera2/util/QCameraQueue.cpp:333-365 | what is kept and what is released make up the queue |
| CameraQueue.FlushTakesMatches | camera/QCamera2/util/QCameraQueue.cpp:333-365 | everything released matches, nothing kept does, every entry is in one of the two, and both keep the order of the queue |
| CbNotifier.NeverStranded | camera/QCamera2/HAL/QCamera2HWICallbacks.cpp:2430-2617 | for every queued callback a DO_NEXT_JOB command or its sender is under way, after any partial flush, unless a command was lost; so the thread never sleeps over one |
| CbNotifier.DrainEmpties | camera/QCamera2/HAL/QCamera2HWICallbacks.cpp:2430-2577 | once the callers are done, the thread empties the queue in as many rounds as the semaphore counts |
| CbNotifier.ExitReturnsExactly | camera/QCamera2/util/QCameraCmdThread.cpp:195-211 | in any run, with all posts made and the thread waiting or ended, it has ended if and only if some EXIT command found memory in the queue: only then does exit() return from its join |
| CbNotifier.StrandsWhatWasLost | camera/QCamera2/util/QCameraCmdThread.cpp:130-158 | in any run, a waiting thread with no caller under way sleeps over at most as many callbacks as commands were lost, and over exactly that many if nothing was flushed |
| CbNotifier.LostCommandStrands | camera/QCamera2/util/QCameraCmdThread.cpp:130-158 | a run in which one lost command leaves one callback behind a sleeping thread |
| CbNotifier.ReleasedOnce | camera/QCamera2/HAL/QCamera2HWICallbacks.cpp:2312-2324 | every accepted callback is queued or has been released, exactly one of the two and once; after the thread's exit all have been |
| CbNotifier.ReleasedInOrder | camera/QCamera2/HAL/QCamera2HWICallbacks.cpp:2462-2617 | in every run, until something is flushed, callbacks leave in the order in which they were accepted |
| CbNotifier.DoneExactly | camera/QCamera2/HAL/QCamera2HWICallbacks.cpp:2520-2544 | SNAPSHOT_DONE is raised just before a snapshot is delivered, exactly when that makes the number delivered since START, in 32 bits, the number expected, outside long shots; what is delivered is released next, with NO_ERROR |
| CbNotifier.DoneOncePerSession | camera/QCamera2/HAL/QCamera2HWICallbacks.cpp:2443-2535 | between one START and the next START or STOP it is raised again only when 2^32 more snapshots have been delivered |
| CbNotifier.DoneAgainAfterWrap | camera/QCamera2/HAL/QCamera2HWICallbacks.cpp:2524-2532 | there is a run in which it is raised twice in a session |
| CbNotifier.DeliveredExactly | camera/QCamera2/HAL/QCamera2HWICallbacks.cpp:2467-2561 | in every run, a callback released with NO_ERROR was handed to the application just before if and only if the function for its kind is set and, for a snapshot, a session is on; any other was not; BAD_VALUE is for unknown kinds alone |
| CbNotifier.JobIsDone | camera/QCamera2/HAL/QCamera2HWICallbacks.cpp:2457-2561 | a DO_NEXT_JOB command releases the oldest callback, with INVALID_OPERATION exactly for a disabled message type and BAD_VALUE exactly for an enabled one of unknown kind |
| CbNotifier.DeliveredOnce | camera/QCamera2/HAL/QCamera2HWICallbacks.cpp:2467-2561 | no callback is handed to the application twice |
| CbNotifier.StopDropsSnapshots | camera/QCamera2/HAL/QCamera2HWICallbacks.cpp:2447-2456 | a snapshot queued when STOP is handled is released with FAILED_TRANSACTION and never handed to the application, in this session or a later one; other callbacks stay |
| CbNotifier.SessionIsAnswer | camera/QCamera2/HAL/QCamera2HWICallbacks.cpp:2437-2456 | a session is on exactly since the last START unless a STOP was handled after it, with the number of snapshots and the mode that the parent answered then |
| CbNotifier.PriorityGoesFirst | camera/QCamera2/util/QCameraCmdThread.cpp:139-149 | a START, STOP or EXIT is the next command handled, unless another one overtakes it |
| CbNotifier.ActiveUntilExit | camera/QCamera2/HAL/QCamera2HWICallbacks.cpp:2298-2302 | notifyCallback lets a call through exactly until exit() is called |
| CbNotifier.SemaphoreCounts | camera/QCamera2/util/QCameraCmdThread.cpp:130-158 | the semaphore with the posts under way counts the commands that had memory, found a queue node or not, less the rounds of the thread |
| CbNotifier.StepKeepsInv | camera/QCamera2/HAL/QCamera2HWICallbacks.cpp:2416-2700 | every step of every thread keeps the notifier's invariant |
| CbNotifierObject.QCameraCbNotifier.EnterNotifyCallback | camera/QCamera2/HAL/QCamera2HWICallbacks.cpp:2595-2600 | the test of mActive is the Check step, and refuses exactly when the notifier is not active |
| CbNotifierObject.QCameraCbNotifier.EnqueueCallback | camera/QCamera2/HAL/QCamera2HWICallbacks.cpp:2602-2617 | notifyCallback's enqueue is its step: refused after the last flush, given up without memory |
| CbNotifierObject.QCameraCbNotifier.SendNextJob | camera/QCamera2/util/QCameraCmdThread.cpp:130-158 | sendCmd is its step, or loses the command without memory; it reports that only when nothing is posted |
| CbNotifierObject.QCameraCbNotifier.SendWithPriority | camera/QCamera2/util/QCameraCmdThread.cpp:139-149 | START, STOP and EXIT are sent to the front, or lost without a queue node while the post follows all the same |
| CbNotifierObject.QCameraCbNotifier.Deactivate | camera/QCamera2/HAL/QCamera2HWICallbacks.cpp:2300 | exit() first makes the notifier inactive |
| CbNotifierObject.QCameraCbNotifier.PostSem | camera/QCamera2/util/QCameraCmdThread.cpp:151 | the post is its step |
| CbNotifierObject.QCameraCbNotifier.NotifyRound | camera/QCamera2/HAL/QCamera2HWICallbacks.cpp:2430-2577 | one round of the callback thread's loop is the handling step |
| CbNotifierObject.QCameraCbNotifier.Handle | camera/QCamera2/HAL/QCamera2HWICallbacks.cpp:2467-2561 | the application's function is called exactly if the message type is enabled, the function for the kind is set and, for a snapshot, a session is on; the status says which of these it was; the calls are those of the handling step |
| CbNotifierObject.QCameraCbNotifier.FlushPreviewNotifications | camera/QCamera2/HAL/QCamera2HWICallbacks.cpp:2667-2677 | while the notifier is active, no data callback of a preview frame stays queued and every other callback does |
| CbNotifierObject.QCameraCbNotifier.FlushVideoNotifications | camera/QCamera2/HAL/QCamera2HWICallbacks.cpp:2691-2699 | while the notifier is active, no timestamp callback of a video frame stays queued and every other callback does |
| FrameRelease.ReleasesAddUp | camera/QCamera2/HAL/QCamera2HWICallbacks.cpp:2595-2617 | in every interleaving of any number of calls, the releases made and the one still queued add up to one for each call, except two for a call whose command found no memory |
| FrameRelease.ReleasedOnceExactly | camera/QCamera2/HAL/QCamera2HWICallbacks.cpp:754-784 | after the callback thread's end, the memory of a call that returned was released exactly once if and only if that malloc did not fail |

## Left out

- Start: the boot clock stays below 2^31 seconds less the longest timeout (68 years), so that every due time fits 31 bits.
- NoLostExpiry: the clock is taken to be positive, because a due time of zero would disarm the timerfd.
- DueTimersEnd: a timer that is not due may be timed out as well, by an Expire message under way (TimesOutEarlyExactly).
- ReleasedInOrder: what a flush does to the order of the callbacks that stay is stated by FlushNodes only.
- SendPreviewCallback: dimensions and strides are not negative, totals stay below 2^31 and the camera's buffer holds the rows that are read, as the C code is undefined otherwise.
- AddAdapter: the calls sent are recorded in order; what `open()` and `close()` do with them is not part of this model.
- FaultsExactly: a deleted client's memory is not given to a new one in the model, so what the source does with such a pointer is only marked as a fault.
- The granularity of the timer service: `start()`, `stop()` and `~LocTimer()` are one step each, under the shared lock; what a client does inside `timeOutCallback()` is what it may do right after it.
- `new` of a message, a delegate or a lock is taken to succeed; a message object that `sendMsg()` loses is not freed, which is not counted.
- FrameRelease.ReleasedOnceExactly: every caller is taken to release its memory on an error return as `sendPreviewCallback` does.
- `detachData()` clearing the data of a heap node that is deleted next.
- `timerfd_create` failure, `LocTimerContainer::get` and the C wrapper around LocTimer: both containers exist from the start.
- A failing `cam_sem_wait`, on which the callback thread would return.
- Real clocks, epoll, scheduling and memory ordering: a volatile field is read and written atomically.
- `msg_q_init`, `msg_q_destroy` and NULL handles: a queue exists for the whole run.
- An event mask is the set of its 32 bits, not a machine word.
- `isInSession`, `updateEvtMask` and the event forwarding of LocApiBase, which only add loops of the same shape.
- Logging, name tables, configuration files, target detection, string helpers, `ContextBase` and the dlopen plumbing.
- The other camera callbacks, metadata, postprocessing and the camera state machine, whose lower layers are not part of this model.
