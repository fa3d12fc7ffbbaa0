# A verified model of h6

h6 is a small relay and proxy framework in C. Its network handlers are thin; what is hard in it is the
machinery underneath: an event loop that other threads talk to through a queue of deferred operations, a
send queue with back-pressure and a lossy sequence window, a trace ring buffer with lap counters, a greedy
scheduler, and two reference-counted objects that keep each other alive. This project models those parts
in Dafny and proves what they keep over every run.

Each part comes in two layers.

- A *value layer* says what every critical section does to the shared state, and a step machine lets any
  number of threads take those steps in any order. The theorems about runs are stated here.
- A *class layer* has the objects of the C code with their fields, lists and arrays updated in place. Every
  method is tied by its contract to the step of the value layer it implements.

| part | value layer and runs | class layer |
|---|---|---|
| event loop, `src/h6_ev.c` | `EvModel`, `EvSystem`, `EvLifetime` | `EventLoop` (EvLoop.dfy) |
| send queue, `src/proto_watch.c` | `SendModel`, `SendSystem`, `SendAnswers`, `WriteInterest` (with the event loop) | `ProtoWatch` |
| trace buffer, `src/trace.c` | `TraceRing`, `TraceSystem` | `AsyncRingBuffer` (AsyncRingBuf.dfy) |
| scheduler, `src/h6_sched.c` | `SchedModel`, `Graham` | `Scheduler` |
| client and watch, `src/network_client.c` | `Lifecycle` | `NetworkClient` |
| lists and queue, `src/queue.c`, `include/list.h` | | `LinkedList`, `IntrusiveList` |
| block cache, `src/mem_block.c` | | `MemBlock` |

The main theorems, hardest first:

1. `EvSystem.ReplayRefinesImmediate`: replaying requests later, one at a time and with the lock released in
   between, ends where doing each of them at once would have ended. `EvSystem.LoopAloneCatchesUp` adds that
   the loop thread gets there by itself from any reachable state.
2. `SendSystem.StreamIntegrity` and `SendSystem.PartlySentBlockGoesOn`: the wire is the accepted stream minus
   whole dropped blocks plus the parts of torn ones, and a partly sent block is carried on with.
   `SendSystem.StreamSurvivesWrite` says, from what a writer can see beforehand, which writes can tear.
   `SendAnswers` says what each call does with the kernel's answers: a write event sends until nothing is left or an
   answer ends it, and a block is lost to a real error only.
3. `TraceSystem.FifoInEveryRun`, `TraceSystem.PrintedEqualsWritten` and `TraceSystem.CloseCompletes`: the ring is
   a FIFO of bytes although the space check and the write are separate critical sections and the lap counters
   wrap modulo 2^32; closing ends, and exactly what was written has been printed unless one of two named things
   happened.
4. `EvSystem.ReferencesConserved`, `EvSystem.QuitReleasesEverything`, `Lifecycle.NobodyTouchesFinalised`,
   `Lifecycle.KillBreaksTheCycle` and `Lifecycle.KillCompletes`: reference counts are conserved, whoever owns a
   reference finds the object alive, a kill takes the watch off its loop, and from every state after it both
   objects get finalised. Uses without a reference are another matter: `EvLifetime` and
   `Lifecycle.AttacherMeetsFinalised` say exactly when those find the object gone.
5. `WriteInterest.SomethingToSendIsWatched`: across both machines, a watch with something to send is watched for
   writing once the loop has run its queue.
6. `Graham.GrahamBound` and `Graham.WithinTwiceAnyAssignment`: the greedy placement against the optimum.

## What is not true of the code

Seven intended laws fail for some inputs. The model keeps the code as it is and proves exactly when the law
holds.

- A write of exactly `size` bytes starting at position `size` passes the end twice but increments the lap
  counter once, so the bytes are lost. `TraceRing.WriteAppends` and, over runs, `TraceSystem.FifoInEveryRun` show
  that this is the only failing case. The assertion at `src/trace.c:230` admits such a write: the default buffer
  and the longest trace line are both 4096 bytes. `TraceSystem.SecondLineIsLost` gives a run in which two lines of
  that length are written, the first being printed in between, and the second is lost.
- A NUL byte in the data is not printed. `TraceRing.CStringWhole` shows that printing is complete exactly for
  NUL-free data, and `TraceSystem.PrintedEqualsWritten` carries that over to runs.
- A direct write that gets some bytes of a block through and then fails hard frees the block and leaves the
  connection open (`src/proto_watch.c:547-550`), so those bytes belong to no accepted block.
  `SendSystem.StreamIntegrity` says where in the stream they are. `SendSystem.StreamSurvivesWrite` shows that a
  write is sure to leave the stream of the accepted blocks intact, whatever the kernel answers, exactly when it is
  not on the direct path or has fewer than two bytes to send; `SendSystem.TornByDirectWrite` gives a run.
- Window trimming stops at the first droppable block still in the window. `SendModel.EarlyExitIsFullFilter`
  shows that this is a full filter exactly when no stale droppable block is queued behind a droppable one in
  the window; `SendModel.StaleBehindFreshSurvives` gives a backlog where it is not.
- A watch that is attached after its loop has quit records the scheduler although the loop refuses the event, and
  the kill then meets the BUG_ON at `src/h6_ev.c:463`. `Lifecycle.KillMissesItsLoop` shows that this happens
  exactly after such an attachment; `Lifecycle.AttachedAfterQuit` gives a run. The model goes on as if the check
  were not there.

- An event is used after a reference to it has been dropped: its count is read for a trace line whose arguments are
  always evaluated. After the loop thread has released an operation (`src/h6_ev.c:554-556`) the event has been freed
  exactly when no caller, no queued operation and not ev_list refers to it (`EvLifetime.ReleaseFreesExactly`); that
  is how an event ordinarily ends, and `EvLifetime.LastReference` gives the run. Where the release did not free it, it
  is sure to be there for the read, whatever callers do meanwhile, exactly if the loop itself still owns a reference
  (`EvLifetime.LoopReadsSafely`). A thread whose drop was not the last (`src/h6_ev.c:685-689`, `src/obj.c:74-78`) is
  sure to find the event exactly if it still owns another reference (`EvLifetime.DropperReadsSafely`);
  `EvLifetime.TwoDroppers`, `Lifecycle.SenderReadsTooLate` and `Lifecycle.HolderReadsTooLate` give runs for an event, a
  watch and a client in which another thread gets in between. The models go on as if these reads had no effect.
- A thread that attaches a client to a loop looks up the watch without the client's lock and without a reference
  (`src/network_client.c:311-333`). `Lifecycle.AttacherMeetsFinalised` shows that it finds the watch finalised exactly
  when the client has been killed and nobody else needs the watch; `Lifecycle.KilledWhileAttaching` gives a run. The
  model goes on as if attaching a finalised watch did nothing.

`queue_pop_tail` (`src/queue.c:342-365`) compares the tail with itself and so clears both ends of a queue of
any length. `LinkedList.Queue.PopTail` states what it does and that it leaves a queue exactly when at most one
element was in it.

## Model

| member | source | states |
|---|---|---|
| EvSystem.ReplayRefinesImmediate | src/h6_ev.c:319-564 | after any interleaving of attach, remove, mask changes (queued and sync), quit and loop steps, an empty operation queue means that the events in the loop, their in-loop flags and the masks libev watches are those of a plain map to which every request was applied at once |
| EvSystem.LoopAloneCatchesUp | src/h6_ev.c:540-577 | from every reachable state the loop thread alone, within three steps per queued operation and two more, empties the queue and waits again, and the loop is then the reference loop of the requests made so far |
| EvSystem.ReferencesConserved | src/h6_ev.c:347-399 | in every reachable state a live event's count is positive and equals caller references, queued operations naming it, the operation being released and one if it is in ev_list; queue, ev_list and watchers name no freed event |
| EvSystem.QuitReleasesEverything | src/h6_ev.c:259-317 | once a quit has been replayed ev_list and the watchers are empty and each live event is kept by its callers alone |
| EvSystem.NoLostWakeup | src/h6_ev.c:91-116 | the pipe holds one unread byte exactly when a request is recorded as pending, and a non-empty queue implies such a byte or a loop thread inside its replay, although the lock is dropped between operations |
| EvSystem.NothingAfterQuit | src/h6_ev.c:294-317 | in every run the quit operation is queued at most once, and nothing is queued behind it |
| EvSystem.StepInv | src/h6_ev.c:515-564 | every step of every thread keeps the books of all events, agreement with the reference, and the wake-up condition |
| EvSystem.StepBooks | src/h6_ev.c:655-692 | every step keeps an event's books balanced: references add up, the event is in ev_list at most once and watched only there and for what it wants, unless a modify operation is still queued, and a freed event is named nowhere |
| EvSystem.RequestRefines | src/h6_ev.c:365-399 | a request changes the events that will be in the loop after the queue has run as doing it at once changes the reference loop, and leaves a wake-up behind |
| EvSystem.LoopRefines | src/h6_ev.c:540-564 | a step of the loop thread changes nothing for the reference: what has run and what is still queued together stay the same |
| EvSystem.ExecSettles | src/h6_ev.c:347-452 | running an operation puts its event in the loop, takes it out, or empties the loop, and does nothing else to membership |
| EvSystem.MaskAfter | src/h6_ev.c:718-795 | whichever branch a mask request takes, the event afterwards wants exactly its old events plus or minus those named, and other events are unaffected |
| EvSystem.InvIsSafe | src/h6_ev.c:540-553 | balanced books imply that the operations, ev_list and the operation being released name only events not yet freed, so that what the loop thread does up to and including its release is done to live events, and that ev_list holds no event twice |
| EvSystem.RunInv | src/h6_ev.c:540-553 | the invariant, and with it the safety of everything up to and including a release, holds after every run |
| EvLifetime.ReleaseFreesExactly | src/h6_ev.c:552-557 | in every run, the release of an operation frees its event, whose count is then read, if and only if no caller, no queued operation and not ev_list refers to it |
| EvLifetime.LastReference | src/h6_ev.c:552-557 | the run of an event that is attached, removed and dropped by its caller, and whose last reference is released by the loop thread |
| EvLifetime.LoopReadsSafely | src/h6_ev.c:550-557 | past a release that did not free the event, it is alive at the read after everything callers can do in between if and only if ev_list or a queued operation still refers to it |
| EvLifetime.DropperReadsSafely | src/h6_ev.c:670-689 | past a drop, the event is alive after everything the others can do, loop thread included, if and only if the dropping thread still owns a reference |
| EvLifetime.CanBeFreed | src/h6_ev.c:670-692 | from every reachable state some continuation frees a given event: its callers drop it and the loop quits |
| EvLifetime.TwoDroppers | src/h6_ev.c:685-689 | a run in which an event is freed between a drop that is not the last and its read of the count |
| EvSystem.EmptyQueueView | src/h6_ev.c:540-564 | a state that satisfies the invariant with an empty queue is the reference loop |
| EventLoop.EvLoop.constructor | src/h6_ev.c:80-89 | a new loop has no events, no operations and no wake-up byte |
| EventLoop.EvLoop.Ref | src/h6_ev.c:655-667 | the object takes the reference-counting step of the model |
| EventLoop.EvLoop.Unref | src/h6_ev.c:670-692 | the last reference, and no other, frees the event |
| EventLoop.EvLoop.Wakeup | src/h6_ev.c:91-100 | at most one byte is written until it is read |
| EventLoop.EvLoop.Attach | src/h6_ev.c:365-407 | refused after quit; otherwise the event is attached and an add operation with its reference is queued behind all others |
| EventLoop.EvLoop.Remove | src/h6_ev.c:454-481 | a remove operation with its reference is queued behind all others unless the loop has quit |
| EventLoop.EvLoop.Quit | src/h6_ev.c:294-317 | the first quit closes the loop to requests and queues the quit operation; later ones do nothing |
| EventLoop.EvLoop.AddEvents | src/h6_ev.c:734-748 | the mask grows, and a modify operation is queued exactly when that changes an attached event of an open loop |
| EventLoop.EvLoop.RemoveEvents | src/h6_ev.c:718-732 | the mask shrinks, and a modify operation is queued exactly when that changes an attached event of an open loop |
| EventLoop.EvLoop.ChangeMask | src/h6_ev.c:515-535 | the mask change with its enqueue is one step of the model |
| EventLoop.EvLoop.AddEventsSync | src/h6_ev.c:750-760 | on the loop thread the watcher follows a changed mask at once |
| EventLoop.EvLoop.RemoveEventsSync | src/h6_ev.c:785-795 | as for adding; with nothing left to want the watcher is stopped |
| EventLoop.EvLoop.SyncAdd | src/h6_ev.c:319-345 | the watcher is started for the event's mask, and not for an empty one, and the event is flagged as in the loop |
| EventLoop.EvLoop.SyncRemove | src/h6_ev.c:409-430 | the watcher is stopped and the flag taken back |
| EventLoop.EvLoop.SyncModified | src/h6_ev.c:483-507 | only an event in the loop has its watcher restarted for its present mask |
| EventLoop.EvLoop.OpsAdd | src/h6_ev.c:347-363 | the linked list, count and watcher change as running an add operation of the model does |
| EventLoop.EvLoop.OpsRemove | src/h6_ev.c:432-452 | as for a remove operation: one list node is found, unlinked and freed, and the list's reference dropped; an event not in the list is left alone |
| EventLoop.EvLoop.ReleaseOne | src/h6_ev.c:259-273 | one event is stopped, unflagged and loses the reference of ev_list |
| EventLoop.EvLoop.ReleaseEach | src/h6_ev.c:280-284 | walking the list releases each event exactly once although events may be freed on the way |
| EventLoop.EvLoop.OpsQuit | src/h6_ev.c:275-292 | all events are released and the list is freed and empty |
| EventLoop.EvLoop.ReplayOne | src/h6_ev.c:547-561 | one round of the loop keeps the system invariant, shortens the queue by its head, and leaves pipe and pending record alone |
| EventLoop.EvLoop.ExecOperations | src/h6_ev.c:540-564 | with no request in between, the loop ends with an empty queue and the reference loop, and leaves pipe and pending record alone |
| EventLoop.EvLoop.WokenUp | src/h6_ev.c:108-116 | the pending byte is read and the record of it taken back |
| EventLoop.EvLoop.ForceWokenUp | src/h6_ev.c:566-577 | a wake-up takes the byte out of the pipe and the record of it back, and leaves the loop equal to immediate execution of the requests made |
| SendSystem.StreamIntegrity | src/proto_watch.c:71-146 | in every run up to finalisation, wire bytes followed by the unsent rest of write_buffer and backlog equal, in order, the accepted payloads and in their places the parts of torn blocks, minus whole dropped blocks; each torn part is a proper part of a block handed over; and the stream is that of the accepted blocks alone if and only if no block was torn |
| SendSystem.PartlySentBlockGoesOn | src/proto_watch.c:113-146 | in every run up to finalisation the wire is the whole carried blocks in front of what the watch holds, followed by a part of the first held block: nothing is reordered, interleaved, or dropped once begun, and the backlog is held as it was accepted |
| SendSystem.TearsExactly | src/proto_watch.c:544-550 | some sequence of kernel answers tears a block if and only if it is offered directly and has at least two bytes to send |
| SendSystem.StreamSurvivesWrite | src/proto_watch.c:544-550 | from every reachable state with nothing torn, the stream of the accepted blocks is intact after a write for all kernel answers if and only if the block is not offered directly or has fewer than two bytes to send |
| SendSystem.IntactWithoutTearing | src/proto_watch.c:530-581 | a run whose writes all meet that condition keeps the stream of the accepted blocks intact |
| SendSystem.TornByDirectWrite | src/proto_watch.c:544-550 | a run in which a refused and freed block leaves a byte on the wire of a live watch |
| SendSystem.BlocksOwnedOnce | src/proto_watch.c:276-323 | each block handed over has been freed exactly once or is held in exactly one of write_buffer and backlog; after finalisation all have been freed; only droppable blocks are ever dropped |
| SendSystem.NoLostInterest | src/proto_watch.c:572-578 | on a live watch something to send implies EV_WRITE in the mask or a writer past its unlock and still to add it |
| WriteInterest.SomethingToSendIsWatched | src/proto_watch.c:113-146 | in every run of a watch together with its event loop, something to send on a live watch that is in its loop, with no writer still to add its interest and the operation queue run, implies that the event is in ev_list and libev watches it for writing |
| WriteInterest.UnwatchedHasNothingToSend | src/proto_watch.c:572-578 | if the event of a live watch is not wanted for writing and no writer is about to say so, nothing is held |
| WriteInterest.NextInv | src/h6_ev.c:734-795 | every step of either machine keeps the interest in writing equal to the EV_WRITE bit of the event's mask |
| SendSystem.InterestOutlivesWork | src/proto_watch.c:118-126 | the only step that takes EV_WRITE back is a write event that leaves nothing to send |
| SendSystem.WriteableIsHonoured | src/proto_watch.c:622-638 | backlog_size is the sum of the queued sizes and at most 65536, and a zero from writeable for a size within the limit means that an immediately following write on a live watch is taken, unless it goes straight to the kernel, where it is not refused with EAGAIN |
| SendSystem.StepInv | src/proto_watch.c:530-581 | every step keeps stream, ownership, accounting and write interest |
| SendSystem.PendingKeeps | src/proto_watch.c:113-146 | a write event moves a prefix of what is outstanding to the wire, frees exactly the finished blocks, and gives up the interest if and only if nothing is left |
| SendSystem.AdjustKeeps | src/proto_watch.c:501-527 | trimming removes and frees whole droppable blocks from the backlog only, keeps the order of the rest and the accounting exact |
| SendSystem.FastEffect | src/proto_watch.c:544-557 | a block offered directly is sent whole, or kept with what is left of it, or freed; only a hard failure can leave bytes of it that no accepted block accounts for, and those continue the stream |
| SendSystem.QueuedEffect | src/proto_watch.c:559-570 | a queued block goes to the end of the stream; a refused one is freed and changes no stream |
| SendModel.DirectMoves | src/proto_watch.c:71-110 | whatever the kernel answers, the wire grows by exactly the bytes the offset moves over, and success means the whole buffer |
| SendAnswers.DirectAnswers | src/proto_watch.c:85-109 | answers are used in order until the buffer is gone or one of them takes nothing; the offset moves by their total, not past the end, with no answer used in vain; the error is EAGAIN exactly if the answers ran out or the last one was 0, EAGAIN or EINTR, and otherwise the errno of that answer |
| SendAnswers.PendingAnswers | src/proto_watch.c:113-146 | a write event with an error has run out of answers, or has used one that took nothing, whose error it reports; without an error nothing is left to send |
| SendAnswers.PendingDelivers | src/proto_watch.c:113-146 | if every answer takes what is offered and there is one for each held block, the event puts everything outstanding on the wire in order, frees every held block in order, drops the interest and returns 0 |
| SendAnswers.WriteEventDelivers | src/proto_watch.c:203-210 | the same for a write event on a connected watch in every run |
| SendAnswers.PendingMoves | src/proto_watch.c:113-146 | with something to send, a first answer that takes bytes puts bytes on the wire |
| SendAnswers.FastPathOutcome | src/proto_watch.c:544-557 | on a live connected watch that holds nothing a block goes to the kernel at once: sent whole it is freed with 0; with a real error it is freed with that error; in all other cases it is kept with what is left of it, with 0 and EV_WRITE still to be added |
| SendAnswers.QueueingOutcome | src/proto_watch.c:559-570 | on a live watch that is connecting or holds something a block never reaches the kernel; after trimming it is queued last with 0 exactly if it fits into 65536 bytes beside what is left, and otherwise freed with EAGAIN |
| SendAnswers.TrimOutcome | src/proto_watch.c:501-527 | up to the first droppable block in the window the undroppable blocks stay in order and the droppable ones are freed in order, and everything from there on stays; without a window nothing changes |
| SendAnswers.AgeCounts | src/proto_watch.c:518 | a block's age is the number of sequence numbers given out since its own, also across the wrap |
| SendAnswers.ClosedOutcome | src/proto_watch.c:537-544 | a write on a killed watch frees the block with EKILLED and does nothing else, and one on a connecting watch leaves wire and kernel as they were |
| SendAnswers.PastTheEnd | src/proto_watch.c:78-81 | a block with its offset past its end is never offered: a direct write frees it with EINVAL, and a write event that meets it stops with EINVAL |
| SendAnswers.WriteableExactly | src/proto_watch.c:622-638 | in every reachable state the answer is 0 exactly if the size is over the limit or fits into it beside what is queued, and EAGAIN otherwise |
| SendModel.EarlyExitIsFullFilter | src/proto_watch.c:501-527 | stopping at the first droppable block in the window leaves what filtering out every stale droppable block would leave, if and only if no stale one is queued behind a droppable one in the window |
| SendModel.AgesInOrder | src/proto_watch.c:518-519 | droppable blocks queued with non-increasing age modulo 2^32 are enough for that |
| SendModel.StaleBehindFreshSurvives | src/proto_watch.c:518-519 | a backlog in which a stale block behind a fresh one is not dropped |
| ProtoWatch.Watch.constructor | src/proto_watch.c:383-392 | a new watch holds nothing, counts nothing and wants no write events |
| ProtoWatch.Watch.WriteDirectly | src/proto_watch.c:71-110 | the send loop leaves offset, wire, unused answers and error of the model for every sequence of kernel answers, and ends; what they are is stated by `SendAnswers.DirectAnswers` |
| ProtoWatch.Watch.WritePending | src/proto_watch.c:113-146 | the loop over write buffer and intrusive backlog is the write-event step, whose progress is stated by `SendAnswers.PendingAnswers` and `SendAnswers.PendingDelivers`, and ends |
| ProtoWatch.Watch.TakeHead | src/proto_watch.c:128-130 | the head of the backlog is unlinked, uncounted and becomes the write buffer, and nothing else changes |
| ProtoWatch.Watch.SendBuffer | src/proto_watch.c:133-142 | the write buffer keeps what was not sent, and is freed and cleared exactly when all of it was |
| ProtoWatch.Watch.TrimBacklog | src/proto_watch.c:507-526 | the in-place scan ends with the nodes, size and frees of the trimmed backlog |
| ProtoWatch.Watch.AdjustWindow | src/proto_watch.c:501-527 | trimming in place is the trimming of the model; a window of 0 drops nothing |
| ProtoWatch.Watch.WriteMb | src/proto_watch.c:530-581 | the object takes the write step of the model with the same error, and reports whether EV_WRITE is still to be added |
| ProtoWatch.Watch.WriteFast | src/proto_watch.c:546-556 | a block that cannot be sent whole becomes the write buffer; success and hard failure free it |
| ProtoWatch.Watch.Enqueue | src/proto_watch.c:560-570 | a block goes to the end of the backlog or is freed when there is no room for it |
| ProtoWatch.Watch.Writeable | src/proto_watch.c:622-638 | answers as the model does, which is 0 exactly when `SendAnswers.WriteableExactly` says so |
| ProtoWatch.Watch.FreeBacklog | src/proto_watch.c:276-289 | every queued block is freed once, in order, and the list is empty |
| ProtoWatch.Watch.Finalise | src/proto_watch.c:315-323 | everything still held is freed once |
| TraceSystem.FifoInEveryRun | src/trace.c:20-90 | in every run, with any data up to a line, the bytes stored are the bytes taken followed by exactly the used region; they are all the bytes written if and only if no write of the whole size started at the end position; without such a write and without NUL the printed bytes are a prefix of the written ones; used and free space add up to the size; the lap counters differ by 0 or 1 modulo 2^32, so the asserted branch is unreachable; and a producer past its space check still has the room |
| TraceSystem.SecondLineIsLost | src/trace.c:223-277 | a run of the default buffer in which the second of two lines of the greatest length is lost |
| TraceSystem.PrintedEqualsWritten | src/trace.c:203-221 | when the closing thread has joined the worker the buffer is empty, and everything accepted has been printed, in order, if and only if there was no NUL in it and no write of the whole size at the end position |
| TraceSystem.CloseCompletes | src/trace.c:129-160 | from every reachable state in which the exit has been posted, the worker alone drains what is left and finishes within two steps per unread byte and four more, and is then joined |
| TraceSystem.NothingForgotten | src/trace.c:272-274 | with the producer idle, unread bytes imply a positive semaphore or a worker still to look |
| TraceSystem.WaitingProducerIsServed | src/trace.c:236-249 | a producer sleeping for room is never stuck: the worker can move, or the producer's own next look finds the room |
| TraceSystem.SleeperIsServed | src/trace.c:236-249 | from every reachable state with a sleeping producer, the worker alone comes to rest within three steps per signal, two per unread byte and three more, and three steps of the producer then take it past its check |
| TraceSystem.LooksAgainWithoutSignal | src/trace.c:240-248 | in every run a producer that wakes up looks at the ring again exactly if no signal is pending |
| TraceSystem.SignalsBounded | src/trace.c:272-274 | in every run at most one signal is pending, and one more once the buffer is being freed |
| TraceSystem.StepInv | src/trace.c:92-160 | every step of producer, worker and closing thread keeps stream, reserved space, signalling and closing order |
| TraceRing.SpaceIsContent | src/trace.c:20-46 | the two space functions are the length of the content and what is left of the size, with 32-bit wrap-around, and the laps differ by 0 or 1 |
| TraceRing.LapDifference | src/trace.c:36-41 | incrementing the writer's counter takes the difference modulo 2^32 from 0 to 1 and incrementing the reader's takes it back, also across the wrap |
| TraceRing.WriteKeepsValid | src/trace.c:251-268 | a write that fits keeps positions and laps in order, and passes the end only from the reader's own lap |
| TraceRing.WriteAppends | src/trace.c:251-268 | a write that fits appends its bytes to the content, if and only if it is not of the whole size starting at position size |
| TraceRing.WholeBufferWriteIsLost | src/trace.c:263-268 | a one-byte buffer that loses the byte written to it |
| TraceRing.ReadTakesOldest | src/trace.c:49-90 | a read of fewer than size bytes leaves exactly the rest, and returns the oldest bytes as strncpy copies them: they print the same, and are the same if there is no NUL among them |
| TraceRing.ReadKeepsValid | src/trace.c:82-87 | a read of fewer than size bytes keeps positions and laps in order and takes as many bytes as there are up to its limit |
| TraceRing.CStringWhole | src/trace.c:118-122 | strncpy followed by printing shows all of the data if it has no NUL, and less than all if it has one |
| AsyncRingBuffer.AsyncRingBuf.constructor | src/trace.c:162-201 | a new buffer is valid and empty |
| AsyncRingBuffer.AsyncRingBuf.GetFreeSpace | src/trace.c:20-31 | the room left beside the content |
| AsyncRingBuffer.AsyncRingBuf.GetUsedSpace | src/trace.c:33-46 | the length of the content |
| AsyncRingBuffer.AsyncRingBuf.Read | src/trace.c:49-90 | the one or two strncpy copies leave in the destination what the read of the model returns, and the positions it has |
| AsyncRingBuffer.AsyncRingBuf.Write | src/trace.c:251-268 | the one or two memcpy copies and the position update are the write of the model |
| AsyncRingBuffer.AsyncRingBuf.TakeLine | src/trace.c:101-115 | up to 4095 of the oldest bytes go to the line as strncpy copies them, the rest stays, and cycle says whether there is a rest |
| AsyncRingBuffer.AsyncRingBuf.PrintLine | src/trace.c:118-122 | terminating the line and printing it shows the bytes taken up to their first NUL |
| AsyncRingBuffer.AsyncRingBuf.PrintUntilZero | src/trace.c:92-127 | with nobody writing the drain loop ends and leaves no used space, and has printed the content in order, each line's worth up to its first NUL: all of it if there is no NUL, less if there is one |
| AsyncRingBuffer.DrainedByLines | src/trace.c:92-127 | what the drain loop prints of a content cut into lines of 4095 bytes and a last one is the text of each, up to its first NUL |
| SchedModel.LeastLoadedInEveryRun | src/h6_sched.c:165-182 | in every reachable state the search seeded with the total returns a least-loaded loop, each loop's weight is the sum of its w_list entries, and total_weight is the sum over the loops |
| SchedModel.BestIsLightest | src/h6_sched.c:165-182 | with exact counters the search returns the first of the lightest loops |
| SchedModel.ScanFindsFirst | src/h6_sched.c:168-179 | after any number of loops the search has its seed, or the first loop lighter than the seed and than all loops before it |
| SchedModel.AddKeepsInv | src/h6_sched.c:248-254 | adding a source keeps the counters exact |
| SchedModel.RemoveKeepsInv | src/h6_sched.c:220-246 | removing keeps the counters exact with no 32-bit underflow, and fails exactly for a source not in w_list |
| SchedModel.AddThenRemove | src/h6_sched.c:200-254 | adding a source and then removing it restores weights, total and w_list |
| SchedModel.AddsOne | src/h6_sched.c:248-254 | adding puts one entry with the given source and weight in front, on the first of the lightest loops, and charges that loop and no other |
| SchedModel.RemovesOne | src/h6_sched.c:220-246 | removing takes out exactly one entry, the newest of the source named, and uncharges its loop by its weight and no other; an unknown source changes nothing and gives -1 |
| SchedModel.OthersStay | src/h6_sched.c:220-246 | every other source keeps its entries, in order |
| SchedModel.RemovedIsGone | src/h6_sched.c:220-254 | in a run that adds each source at most once, a source that is removed is listed no more, and the call gives 0 exactly if it was |
| Graham.GrahamBound | src/h6_sched.c:165-198 | after any add-only run over m loops, m times the heaviest loop is at most the total plus m - 1 times the largest weight |
| Graham.WithinTwiceAnyAssignment | src/h6_sched.c:248-254 | so m times the heaviest loop is at most 2m - 1 times the heaviest loop of any assignment of the same weights |
| Graham.UnitWeightsBalance | src/h6_sched.c:248-254 | with unit weights no two loops differ by more than 1 |
| Graham.AssignmentIsHeavy | src/h6_sched.c:185-198 | any assignment's heaviest loop is at least the average and at least the largest weight |
| Scheduler.Scheduler.constructor | src/h6_sched.c:92-116 | the initial state of the runs, with as many loops as asked for |
| Scheduler.Scheduler.FindBestLoop | src/h6_sched.c:165-182 | the index loop returns a loop no heavier than any other |
| Scheduler.Scheduler.Add | src/h6_sched.c:248-254 | weights array, total and linked w_list change as adding in the model |
| Scheduler.Scheduler.FindSource | src/h6_sched.c:209-228 | the list node of the first entry of the source, or NULL if there is none |
| Scheduler.Scheduler.Remove | src/h6_sched.c:220-246 | weights array, total, linked w_list and return value are those of removing in the model, which `SchedModel.RemovesOne` and `SchedModel.OthersStay` determine |
| Lifecycle.NobodyTouchesFinalised | src/network_client.c:380-455 | in every interleaving of senders, killers, attachers, callbacks and the loop, a thread finds the watch not finalised as long as it owns a reference to it, in a send or a kill, and the client likewise in a call; so does the loop while it lists the watch, has operations on it or is dispatching to it |
| Lifecycle.AttacherMeetsFinalised | src/network_client.c:311-333 | a thread between its look at the client's watch pointer and its use of it finds the watch finalised if and only if the client has been killed, nobody else owns a reference and the loop holds none |
| Lifecycle.KilledWhileAttaching | src/network_client.c:311-333 | a run in which it does |
| Lifecycle.SenderReadsTooLate | src/h6_ev.c:685-689 | a run in which a sender drops a reference to the watch that is not the last, and the watch is finalised before the sender's next step |
| Lifecycle.HolderReadsTooLate | src/obj.c:74-78 | the same for a holder of the client |
| Lifecycle.KilledOnceInOrder | src/network_client.c:277-295 | the watch is taken out of the client once, exactly when the client is killed, and is killed itself as soon as the thread that took it has gone on, and not otherwise; until then both objects live; a finalised client's watch has been finalised before it |
| Lifecycle.KillBreaksTheCycle | src/network_client.c:172-208 | once the client is killed, nobody is in a call and the loop has run its queue, the kill has taken the watch off the loop and both objects have been finalised, also when a sender queued an operation behind the removal or the loop has quit |
| Lifecycle.KillCompletes | src/network_client.c:277-295 | from every reachable state with a killed client, finishing the calls in progress and running the queued operations, with nothing new begun, finalises both objects within a bound: nothing is leaked and nothing waits for ever |
| Lifecycle.ListedWhileAttached | src/proto_watch.c:427-498 | an open loop that has run its queue watches the watch exactly while it is attached and not killed; one that has run its quit does not |
| Lifecycle.KillMissesItsLoop | src/h6_ev.c:463 | a live watch has a scheduler but no loop, so that its kill meets the BUG_ON, if and only if it was attached after the loop had quit |
| Lifecycle.AttachedAfterQuit | src/h6_sched.c:68-77 | a run that ends with a killer about to meet it |
| Lifecycle.FinalisedOnce | src/proto_watch.c:329-340 | a finalised object stays finalised with count 0, and a killed client is never killed again |
| Lifecycle.LastUnrefReleases | src/network_client.c:211-229 | a client whose last reference goes while its watch is still set kills the watch and gives up its reference to it |
| Lifecycle.StepInv | src/network_client.c:277-295 | every step keeps both counts equal to the references threads, loop and the two objects own, one thread about to kill a watch that was taken, and the loop's queue in line with the attachment |
| Lifecycle.EffectBalanced | src/network_client.c:380-455 | a thread's step changes the counts by exactly the references it takes or gives up, and passes the duty to kill on or discharges it |
| NetworkClient.Client.constructor | src/network_client.c:180-208 | after construction each object holds one reference to the other and the creator one to the client |
| NetworkClient.Client.Unref | src/network_client.c:211-229 | a caller gives up its reference: the books stay balanced for one caller fewer, and the client is finalised exactly with its last caller and after its watch |
| NetworkClient.Client.ReleaseWatch | src/network_client.c:211-219 | a watch that is still set is killed, loses the client's reference, and is set no more |
| NetworkClient.Client.UnrefWatch | src/network_client.c:172-177 | a user gives up its reference: the watch is finalised exactly when no user, client, queue or list needs it, and takes a client without callers along |
| NetworkClient.Client.RefForSend | src/network_client.c:380-415 | a sender gets a watch that is not finalised, with a reference counted for it, exactly when the client is not killed |
| NetworkClient.Client.TakeForKill | src/network_client.c:277-289 | only the first killer gets the watch, with the client's reference to it and the duty to kill it |
| NetworkClient.Client.KillWatch | src/proto_watch.c:427-448 | the watch is killed, the duty discharged, and an open loop will not have it once its queue has run; counts stay balanced |
| NetworkClient.Client.WatchToAttach | src/network_client.c:311-322 | an attacher gets the client's watch pointer, or NULL, and no reference |
| NetworkClient.Client.Attach | src/proto_watch.c:471-498 | a live watch goes to one loop once, and an open loop will have it when its queue has run; counts stay balanced |
| NetworkClient.Client.SelfKill | src/network_client.c:277-295 | whoever else refers to the objects, the client is killed, the first caller also kills the watch, later ones change nothing, and the caller keeps its reference |
| NetworkClient.Client.KillUnref | src/network_client.c:373-377 | for any other callers and users and whether attached or not: the client is killed once, its loop will let go of the watch, the caller's reference is gone, and each object is finalised exactly when nothing refers to it |
| LinkedList.Queue.constructor | src/queue.c:267-273 | an empty queue |
| LinkedList.Queue.PushTail | src/queue.c:303-313 | the element goes to the end; links stay mirrored, count and both ends right |
| LinkedList.Queue.PushHead | src/queue.c:367-381 | the element goes to the front; links stay mirrored, count and both ends right |
| LinkedList.Queue.PopHead | src/queue.c:316-339 | the first element is returned and its node freed; NULL comes exactly from an empty queue |
| LinkedList.Queue.PopTail | src/queue.c:342-365 | the last element is returned and both ends are cleared, which leaves a queue if and only if there was at most one element |
| LinkedList.InsertHead | src/queue.c:40-56 | a new node in front of the list, which is otherwise unchanged |
| LinkedList.InsertTail | src/queue.c:59-83 | a new node at the end, given any node of the list |
| LinkedList.Last | src/queue.c:246-256 | the last node, from any node of the list |
| LinkedList.Find | src/queue.c:191-202 | the first node holding the data, or NULL if none does |
| LinkedList.FindBy | src/queue.c:205-217 | the first node the comparison accepts, or NULL if none is |
| LinkedList.RemoveLink | src/queue.c:142-160 | the node leaves the list, which stays well linked, and is a list of its own; NULL changes nothing |
| LinkedList.DeleteLink | src/queue.c:162-169 | the node leaves the list and is freed |
| LinkedList.Remove | src/queue.c:86-110 | the first node holding the data, and no other, leaves the list and is freed |
| LinkedList.RemoveAll | src/queue.c:113-139 | exactly the nodes holding the data leave the list and are freed |
| LinkedList.Concat | src/queue.c:172-188 | the two lists become one, in order, with no node copied |
| LinkedList.FreeList | src/queue.c:27-38 | every node reachable from the given one is freed once |
| LinkedList.FindRemoveFree | src/h6_ev.c:440-446 | freeing a list from a node that has just been unlinked frees that node only |
| LinkedList.RemoveEveryWithout | src/queue.c:113-139 | taking out occurrences one by one, in any order, ends at the same list |
| IntrusiveList.AddBetween | include/list.h:34-42 | a node put between two consecutive nodes of a ring |
| IntrusiveList.Add | include/list.h:52-55 | the node becomes the first of the ring |
| IntrusiveList.AddTail | include/list.h:65-68 | the node becomes the last of the ring |
| IntrusiveList.Unlink | include/list.h:77-81 | the ring without the node, whose own links are left alone |
| IntrusiveList.Del | include/list.h:88-93 | the ring without the node, whose links are NULL; only the node and its neighbours are written |
| IntrusiveList.DelInit | include/list.h:99-103 | the ring without the node, which is a ring of its own |
| IntrusiveList.Empty | include/list.h:132-135 | true exactly for a ring that is only its head |
| IntrusiveList.Move | include/list.h:110-114 | the node goes right after the head of its own or another ring, and both stay rings |
| IntrusiveList.MoveTail | include/list.h:121-126 | the node goes to the end of its own or another ring, and both stay rings |
| IntrusiveList.SpliceNodes | include/list.h:137-149 | four assignments put all nodes of one ring between the head of another and its first node |
| IntrusiveList.Splice | include/list.h:156-160 | the other ring is then head, moved nodes, own nodes; an empty list moves nothing |
| IntrusiveList.SpliceInit | include/list.h:169-176 | as before, and the emptied head is a ring of its own |
| IntrusiveList.DeleteEach | include/list.h:210-212 | safe iteration that deletes each current node visits every entry once, in order, and ends with an empty ring and every node unlinked |
| MemBlock.Cache.constructor | src/mem_block.c:15-22 | an empty cache |
| MemBlock.Cache.Alloc | src/mem_block.c:25-52 | the header handed out was not held before: the most recently cached one, or a new one exactly when the cache is empty; cached and held headers stay disjoint and the count exact |
| MemBlock.Cache.Free | src/mem_block.c:55-83 | a held header is cached in front unless there are 128 already; the count stays exact and at most 128 |
| MemBlock.Cache.FreeThenAlloc | src/mem_block.c:25-83 | freeing and allocating again returns the same header and restores the cache |
| MemBlock.Gather.Append | src/mem_block.c:125-143 | all unsent bytes of the block are appended and its sequence number taken over, if and only if they fit; otherwise nothing changes |
| MemBlock.AllocGather | src/mem_block.c:93-123 | an empty gathering block of the asked size, or NULL exactly above 65536 |

## Left out

Assumptions of the model:

- Event loop: `ev_fd` is not negative; a mask change and its enqueue are one step (the code changes the mask before it takes the loop's lock); an event is attached at most once, as `src/h6_ev.c:373` asserts, and removed only when attached, as `src/h6_ev.c:463` demands; the sync forms run on the loop thread outside a replay.
- Send queue: the answers of `send` are an arbitrary finite script, after whose end the kernel answers EAGAIN; block sizes leave room for the 32-bit sum at `src/proto_watch.c:560`.
- Trace buffer: one producer; at most a line (4096 bytes) a write, as `src/trace.c:230` asserts; a buffer of at least one trace line and less than 2^31 bytes; `cycle` starts at 0 (it is uninitialised at `src/trace.c:95`); nobody writes while the buffer is being freed.
- Client and watch: the loop is the one the scheduler picked; the check at `src/h6_ev.c:463` is not modelled, only when it would fail.
- Scheduler: at least one loop, and the 32-bit total does not overflow.

Not modelled:

- Timers and timeouts (`src/h6_ev.c:592-616`, `src/h6_ev.c:762-783`), libev, pipes, pthreads and semaphore internals: they are abstract state and atomic steps.
- The reference count and freeing of the loop object itself.
- EventLoop.EvLoop.ExecOperations: proved with no request coming in between; interleavings with other threads are the subject of `EvSystem`.
- EventLoop.EvLoop.ForceWokenUp: likewise.
- ProtoWatch.Watch.WriteMb: free_memblock is recorded as the id of the block; the cache it goes to is modelled apart, in `MemBlock`. The list entry of a block carries the fields of the C struct that embeds it.
- The read side of a watch, its parser, and what happens to the connection after a write event fails hard (closing the descriptor and the error callback); in `SendSystem` the interest in EV_WRITE is a flag, and its way into libev is the subject of `WriteInterest`.
- Scheduler.Scheduler.Add: records the placement only; the loop that the source is attached to is modelled in `EventLoop`, and the code ignores whether the attachment was refused.
- Scheduler.Scheduler.Remove: likewise, the removal of the source from its event loop is modelled in `EventLoop`.
- NetworkClient.Client.Attach: the critical section under the watch's lock only; its caller's unlocked look is `WatchToAttach`, and what can come between the two is the subject of `Lifecycle`.
- Lifecycle.NobodyTouchesFinalised: says nothing about uses without a reference; those are the subject of `EvLifetime` and of `Lifecycle.AttacherMeetsFinalised`.
- The failing initialisation path of a client (`src/network_client.c:246-257`) and its user callbacks.
- LinkedList.Queue.PopTail: no deque law is stated for it, because it does not have one.
- Client, listener and relay sets (`src/client.c`, `src/listener.c`): their teardown kills members while holding a lock that the kill takes again.
- Trace formatting and time stamps (`src/trace.c:282-457`), and several producers.
- Allocation failure everywhere.
- Socket helpers, command line, factories and forwarding through tables of functions: one-branch plumbing.
