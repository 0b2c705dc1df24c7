# Verified cores of the chat and data server

This project models the self-contained cores of the server and proves properties of
them in Dafny 4.11:

- **The priority thread pool** (`base_threadpool.c` on the sentinel rings of
  `base_ring.h`). `BaseRing` holds the ring macros on heap nodes; `TaskOrder` the
  priority queue with its four-entry segment index as functions on values;
  `TaskQueue` and `TaskPool` the pointer rings, proved to compute those functions;
  `PoolProtocol` the interleavings of workers and clients, one step for each region
  under `me->lock`; `PoolSteps` when the pool grows and shrinks.
- **The JSON parser and printer** (`json_serializer.cc`, `string_escape.cc`).
  `JsonLex` gives the token stream of a text, `JsonLayout` what it does and does not
  depend on, `JsonGrammar` the trees `BuildValue` makes, `JsonPrint` the printed
  text; `JsonParser` and `JsonPrinter` are the two classes as they run, proved to
  compute those functions; `JsonRoundTrip` and `JsonCommas` relate printing, parsing
  and trailing commas; `JsonSyntax` gives the grammar the parser is proved to accept,
  `JsonText` string literals, layout, numbers and printed texts with their characters
  written out.
- **The MEMWATCH heap chain** (`memwatch.c`). `MwChain` holds the doubly linked
  list, the integrity checker and the repair routine, `MwHeap` the accounting, `MwRuns`
  whole runs of calls.
- **Value trees** (`values.cc`, `base_values.cc`): `ValueTree` holds merging, dotted
  paths and copying without empty children on values, with their laws; `ValueHeap` the
  nodes that are copied, merged, set and removed in place, proved to compute those
  functions without sharing nodes.
- **The timer list** (`clock_task.c` on `linuxlist.h`), in `ClockTask`, the
  **growable text buffer** (`buffer.c`), in `TextBuffer`, and the **chat wire codec**
  (`protocol.cc`), in `ChatCodec`, its bytes in `ChatLayout`.

`dafny verify dfyconfig.toml` checks everything.

## Results where the code does not do what its names suggest

- A push strictly above the head of its segment leaves `task_idx` behind the new
  task. `AddKeepsIndexIff` says that this is the only case, `RunWellIndexedIff` the same
  over whole runs, `PushKeepsBlocksIff` the same with the blocks of 64 priorities written
  out, `UnguardedPushesUnsort` gives three pushes that leave the ring unsorted, and
  `OneLevelRunsAreSorted` that it cannot happen when each block uses one priority.
- A queued priority task can be left without any worker only when the pool had no
  thread and creating one failed; `AddAttendedIff` gives this exact condition for one
  add, `NoLostWorkIff` over whole runs, `WorkCanBeLost` a run that loses a task.
- A scheduled task can be forgotten by every worker: a worker that finds nothing due
  waits without a timeout when the first deadline passes between its two readings of
  the clock, or leaves the pool; or it is scheduled in a pool without threads and
  creating one fails. `RunWatchedIff` says over whole runs that these are the only
  cases, `WatchCanBeLost` gives a run for either kind.
- `UnpackStream` reads outside the packet for USER_LOGIN_FAILED and
  TEXT_CHAT_PRIVATE_RECV, whatever was packed. `PackStream` reports 31 bytes whenever
  the caller's head gives packet length 31 and data length 0, as `MAKE_FAIL_HEAD` builds
  it, and what is then sent is refused by the reader. `RoundTripIff` says that these are
  the only failures, `Failures` gives a packet for each. For
  GET_OPPOSITION_INFO it subtracts another constant than `PackStream` adds, and the
  division recovers the number of entries all the same: `ListLength`.
- `mwRelink` answers 0 after a perfect repair while no-mans-land blocks are retained,
  because it compares the length of the chain with the number of live blocks:
  `RepairedButNo`. Its two searches run for ever when they come back to their start, and
  only then: `SearchEndsIff`, `TwoInACircle`.
- `mwIsOwned` takes a foreign block for one of its own when it can be read, passes the
  checksum, and the heap retains no no-mans-land block (then `mwRelink` answers 1 although
  it has found nothing to repair) or its neighbours point back to it. Freeing it takes a
  live block out of the count: `Free` is exact about it, `WildFree` gives an example.
- `LI_ltostr` prints `-0` for `LONG_MIN` (with wrap-around negation) and every other
  long correctly: `LongTextReadsIff`.
- A timer added with count 0 never fires and disappears, except with period 1, where
  it fires for ever: `ZeroCount`. One whose period is 0 or negative never fires and is
  never dropped: `NeverFires`.
- A comment that is not closed hides the rest of the text without an error:
  `UnclosedComment`.
- The printer accepts trees of any depth, the parser only those of height at most
  100: `RoundTrip` is exact about it.

## Model

| member | source | states |
|---|---|---|
| `BaseRing.SpliceBefore` | src/server/chat/core/base_ring.h:45-50 | hooking a detached chain in front of any node (or the sentinel) of a well-formed ring gives the well-formed ring with the chain inserted at that place |
| `BaseRing.Unsplice` | src/server/chat/core/base_ring.h:97-102 | taking a stretch out of a ring leaves a well-formed ring of the other members and a well-formed detached chain whose outer links still point into the ring |
| `BaseRing.InsertBefore` | src/server/chat/core/base_ring.h:59-60 | inserting one node puts it exactly before the given one and changes no other place |
| `BaseRing.Remove` | src/server/chat/core/base_ring.h:104-105 | the ring loses exactly that node, which keeps its two links |
| `BaseRing.UnspliceThenSplice` | src/server/chat/core/base_ring.h:45-102 | splicing a chain back in front of its old successor undoes the unsplice, for every ring and every stretch |
| `BaseRing.RingLinks` | src/server/chat/core/base_ring.h:21-30 | following next or prev in a well-formed ring visits the members in order, the sentinel at both ends |
| `TaskOrder.AddSplits` | src/server/chat/core/base_threadpool.c:370-403 | the place found through the segment index separates the ring by priority: a push goes behind all equal priorities, a top in front of them |
| `TaskOrder.AddRefinesSimple` | src/server/chat/core/base_threadpool.c:454-515 | on a well-indexed ring, indexed insertion is plain insertion into a sorted list, which stays sorted |
| `TaskOrder.AddKeepsIndexIff` | src/server/chat/core/base_threadpool.c:484-491 | afterwards every index entry is again the first task of its segment if and only if the insertion is a top or a push not strictly above the head of its segment |
| `TaskOrder.RemoveAtKeepsIndex` | src/server/chat/core/base_threadpool.c:177-188 | taking any task out re-points its index entry so that every entry is again the first task of its segment, or NULL exactly when the segment is empty |
| `TaskOrder.CancelFromIsOthers` | src/server/chat/core/base_threadpool.c:537-563 | cancelling an owner leaves exactly the other owners' tasks, in their old order |
| `TaskOrder.OthersMembers` | src/server/chat/core/base_threadpool.c:537-563 | a task survives a cancellation exactly when it has another owner |
| `TaskOrder.OthersSplits` | src/server/chat/core/base_threadpool.c:537-563 | two stretches of the ring are cancelled separately, and a task alone stays or goes by its owner, so order and number are kept |
| `TaskOrder.CancelFromKeepsIndex` | src/server/chat/core/base_threadpool.c:537-563 | cancelling keeps the ring sorted and every index entry right |
| `TaskOrder.RunRefines` | src/server/chat/core/base_threadpool.c:151-563 | over every sequence of tops, guarded pushes, pops and cancellations the indexed ring is the sorted-list queue and stays well indexed |
| `TaskOrder.RunWellIndexedIff` | src/server/chat/core/base_threadpool.c:151-563 | over every run with byte priorities, the ring stays sorted and every index entry right throughout if and only if every push meets the guard |
| `TaskOrder.SegIsBlock` | src/server/chat/core/base_threadpool.c:13-14 | a priority from 0 to 255 belongs to segment priority / 64, any other to the segment of its low byte, also when it is negative |
| `TaskOrder.BlocksAreIndexed` | src/server/chat/core/base_threadpool.c:370-403 | in a well-indexed ring entry s of the index is the first task with a priority from 64s to 64s + 63, or NULL when there is none |
| `TaskOrder.PushKeepsBlocksIff` | src/server/chat/core/base_threadpool.c:484-491 | with the blocks written out: a top keeps the ring well indexed, a push if and only if no queued task lies in its block of 64 priorities or one that does is not smaller |
| `TaskOrder.OneLevelRunsAreSorted` | src/server/chat/core/base_threadpool.c:151-563 | over every run from the empty ring that uses at most one priority in each of 0..63, 64..127, 128..191 and 192..255, the ring stays well indexed and is the plain sorted list |
| `TaskOrder.UnguardedPushesUnsort` | src/server/chat/core/base_threadpool.c:484-491 | pushing 5, 6 and 7 into one segment leaves the order 6, 7, 5 |
| `TaskOrder.SchedAddStable` | src/server/chat/core/base_threadpool.c:405-452 | scheduling is a stable insertion into the time order |
| `TaskOrder.OthersTimeSorted` | src/server/chat/core/base_threadpool.c:517-535 | cancelling keeps the scheduled tasks in time order |
| `TaskOrder.PopIsDue` | src/server/chat/core/base_threadpool.c:151-189 | whatever was pushed, a pop delivers a scheduled task only when it is due and then the earliest one, a priority task only when nothing is due, and nothing only when nothing is ready |
| `TaskOrder.PopIsGreatest` | src/server/chat/core/base_threadpool.c:170-188 | a priority task that a pop delivers from a well-indexed ring is a greatest one |
| `TaskQueue.PriorityRing.Detach` | src/server/chat/core/base_threadpool.c:177-188 | unlinking a task from the pointer ring, with count and index, is removal of that position from the abstract queue |
| `TaskQueue.PriorityRing.FindPlace` | src/server/chat/core/base_threadpool.c:370-403 | the pointer walks through the segment index end at the node of the abstract insertion position |
| `TaskQueue.PriorityRing.Insert` | src/server/chat/core/base_threadpool.c:454-515 | linking a task in changes ring, count and task_idx to those of the abstract add |
| `TaskQueue.PriorityRing.RemoveTasks` | src/server/chat/core/base_threadpool.c:537-563 | the in-place loop removes exactly what the abstract cancellation removes |
| `TaskQueue.PriorityRing.PopFirst` | src/server/chat/core/base_threadpool.c:170-188 | the first task leaves the ring, and only it; an empty ring is left alone |
| `TaskQueue.RunOps` | src/server/chat/core/base_threadpool.c:151-563 | every sequence of tops, pushes, pops and cancellations on the pointer ring ends in the ring of the abstract run, and in that of the plain sorted list when the run is guarded |
| `TaskQueue.ScheduledRing.WalkTimes` | src/server/chat/core/base_threadpool.c:419-433 | the walk finds the abstract position, whatever is read through the sentinel of an empty ring |
| `TaskQueue.ScheduledRing.Insert` | src/server/chat/core/base_threadpool.c:405-452 | the pointer ring of scheduled tasks becomes the abstract stable insertion |
| `TaskQueue.ScheduledRing.PopDue` | src/server/chat/core/base_threadpool.c:157-168 | the first scheduled task leaves the ring exactly when it is due, and only it |
| `TaskQueue.ScheduledRing.RemoveTasks` | src/server/chat/core/base_threadpool.c:517-535 | exactly the owner's scheduled tasks are unlinked |
| `TaskPool.Pool.TaskNew` | src/server/chat/core/base_threadpool.c:340-368 | a task object comes from the recycled ring or is new, is on no ring, and holds the given fields; NULL exactly when nothing is recycled and memory is short |
| `TaskPool.Pool.AddTask` | src/server/chat/core/base_threadpool.c:454-515 | ERANGE exactly when the queue is full, ENOMEM exactly when no object can be had, else the abstract add; the object is the first recycled one or, without one, new; nothing else changes and no object serves two rings |
| `TaskPool.Pool.ScheduleTask` | src/server/chat/core/base_threadpool.c:405-452 | ENOMEM exactly when no object can be had, else the stable insertion with due time now + delay; the object is the first recycled one or, without one, new |
| `TaskPool.Pool.PopTask` | src/server/chat/core/base_threadpool.c:151-189 | the object returned comes from one of the two rings, holds the task of the abstract pop and is on no ring; both rings change accordingly |
| `TaskPool.Pool.Recycle` | src/server/chat/core/base_threadpool.c:260-261 | a finished task's object joins the recycled ring, the queues unchanged |
| `TaskPool.Pool.CancelTasks` | src/server/chat/core/base_threadpool.c:752-764 | both rings lose exactly the owner's tasks and gain no object |
| `TaskPool.RunCalls` | src/server/chat/core/base_threadpool.c:151-563 | over every run of adds, schedules, pops, finished tasks and cancellations on a new pool, no object ever serves two rings, two workers, or a ring and a worker, and the queues, the recycled objects and the running tasks are those of the abstract run |
| `PoolProtocol.InitialInv` | src/server/chat/core/base_threadpool.c:68-148 | the freshly built pool satisfies the invariant |
| `PoolProtocol.NextCore` | src/server/chat/core/base_threadpool.c:230-312 | every step of every worker and client keeps the counters equal to the rings, every live worker in exactly one place, the scheduled ring in time order and accepted = run + queued + scheduled + cancelled |
| `PoolProtocol.AddAttendedIff` | src/server/chat/core/base_threadpool.c:493-514 | after an accepted add some worker is starting, busy or woken if and only if the pool had a thread or creating one succeeded |
| `PoolProtocol.NextInv` | src/server/chat/core/base_threadpool.c:230-515 | every step keeps the whole invariant, provided that an add to a pool without threads can create one |
| `PoolProtocol.NoLostWork` | src/server/chat/core/base_threadpool.c:230-515 | over every run of clients and workers in which an add to a pool without threads can create one, whenever a priority task is queued some worker is starting, busy or already signalled |
| `PoolProtocol.NoLostWorkIff` | src/server/chat/core/base_threadpool.c:230-515 | over every run, queued priority work always has a starting, busy or signalled worker if and only if every accepted add to a pool without threads can create one |
| `PoolProtocol.WorkCanBeLost` | src/server/chat/core/base_threadpool.c:493-514 | a run of a new pool without threads whose first add cannot create one leaves the task queued with nobody to run it |
| `PoolProtocol.NextOrdered` | src/server/chat/core/base_threadpool.c:230-515 | every guarded step keeps the priority ring sorted and its index right |
| `PoolProtocol.RunOrdered` | src/server/chat/core/base_threadpool.c:230-515 | so does every guarded run |
| `PoolProtocol.RunCore` | src/server/chat/core/base_threadpool.c:230-515 | over every run, guarded or not and whether or not threads can be created, counters, places and time order are right and every accepted task is run, queued, scheduled or cancelled |
| `PoolProtocol.RunConservesTasks` | src/server/chat/core/base_threadpool.c:151-563 | over every run the tasks waiting at first or accepted are, as a multiset, those started, cancelled or still waiting: none is lost and none is started twice |
| `PoolProtocol.RunTakesBest` | src/server/chat/core/base_threadpool.c:151-267 | over every run, whenever a worker looks for a task it starts a scheduled one that is due and the earliest of all, or a priority task while nothing scheduled is due, and the task leaves its queue once; it starts nothing only when nothing is ready |
| `PoolProtocol.RunTakesGreatest` | src/server/chat/core/base_threadpool.c:151-267 | over every guarded run, a priority task that a worker starts is a greatest one |
| `PoolProtocol.BeginCancelling` | src/server/chat/core/base_threadpool.c:752-764 | after the locked region of a cancellation no queued or scheduled task has the owner |
| `PoolProtocol.NextCancelling` | src/server/chat/core/base_threadpool.c:565-585 | while nobody adds for the owner, every step keeps nothing of the owner queued or scheduled, and once the canceller has returned, nothing of the owner running |
| `PoolProtocol.CancelReturnsClean` | src/server/chat/core/base_threadpool.c:517-585 | when the cancellation has returned, in every interleaving without adds for that owner, no queued or scheduled task has the owner and no busy worker runs one |
| `PoolProtocol.NextWatchedIff` | src/server/chat/core/base_threadpool.c:230-452 | while some worker is active or in a timed wait, a step keeps it so if and only if scheduling has a thread or can create one, and a worker that finds nothing to take stays and has not passed the first deadline at its second reading of the clock, or another one watches |
| `PoolProtocol.ScheduleWatchedIff` | src/server/chat/core/base_threadpool.c:438-451 | after scheduling, some worker is active or in a timed wait if and only if the pool had a thread or creating one succeeded |
| `PoolProtocol.RunWatchedIff` | src/server/chat/core/base_threadpool.c:230-452 | over every run, no scheduled task is ever left without such a worker if and only if every step meets the condition of NextWatchedIff |
| `PoolProtocol.WatchCanBeLost` | src/server/chat/core/base_threadpool.c:288-304 | two runs of a new pool that leave a scheduled task to nobody: its worker finds nothing due and sets out to wait after the deadline, or creating the first thread fails |
| `PoolSteps.AddGrowsIff` | src/server/chat/core/base_threadpool.c:462-511 | a full queue refuses and changes nothing; otherwise the pool grows by one thread if and only if creating one succeeds and there is none, or nobody is idle, the maximum is not reached and more tasks than the threshold are queued |
| `PoolSteps.ScheduleGrowsIff` | src/server/chat/core/base_threadpool.c:440-449 | scheduling makes a thread if and only if there is none and creating one succeeds |
| `PoolSteps.OthersStay` | src/server/chat/core/base_threadpool.c:436-511 | after an add or a schedule a new thread starts off probation, the signalled workers are woken, and no other worker has changed |
| `PoolSteps.FinishIdles` | src/server/chat/core/base_threadpool.c:268-305 | a worker that has finished and finds nothing ready leaves exactly when it is on probation, or enough others are idle and there is no idle time, unless a pool that keeps nobody idle has scheduled tasks; otherwise it waits, with a timeout exactly when a deadline is ahead or an idle time is set for a surplus worker, which goes on probation |
| `PoolSteps.TakeIdles` | src/server/chat/core/base_threadpool.c:245-305 | the same for a started or woken worker, which no longer counts as idle itself |
| `PoolSteps.RunBounded` | src/server/chat/core/base_threadpool.c:68-515 | over every run of a new pool there are never more threads than it started with, than the maximum, and than one; without an idle time never more idle ones than wanted, if any are |
| `PoolSteps.LookReturnsIff` | src/server/chat/core/base_threadpool.c:565-585 | a canceller that looks returns if and only if it had returned, or no worker runs a task for its owner; while the worker it sleeps on does, it sleeps on |
| `MwChain.IsHeapOK` | src/server/chat/core/memwatch.c:1898-1919 | on any pointer graph over a finite set of safe blocks, cyclic ones included, the walk ends, and for a non-NULL head it answers 1 exactly when the blocks from head are a duplicate-free, correctly back-linked list ending at tail (and holding the given block) |
| `MwChain.SearchForward` | src/server/chat/core/memwatch.c:1604-1709 | where the search from the head ends, it finds a block whose next is the damaged one, and on a chain damaged there only, its predecessor exactly when it is in the chain |
| `MwChain.SearchBackward` | src/server/chat/core/memwatch.c:1604-1709 | where the search from the tail ends, it finds a block whose prev is the damaged one, and on a chain damaged there only, its successor exactly when it is in the chain |
| `MwChain.SearchEndsIff` | src/server/chat/core/memwatch.c:1627-1690 | on any pointer graph over a finite set of safe blocks, a search of the repair ends if and only if it does not come back to the block it started from |
| `MwChain.TwoInACircle` | src/server/chat/core/memwatch.c:1627-1690 | two blocks linked to each other on both sides: the search for a third never ends |
| `MwChain.ChainIsUnique` | src/server/chat/core/memwatch.c:1898-1919 | at most one sequence of blocks is the chain between two ends |
| `MwChain.Relink` | src/server/chat/core/memwatch.c:1604-1888 | if the two links of one chained block are arbitrary and everything else is intact, exactly the original chain is restored, and the answer is 1 exactly when the chain is as long as the live count |
| `MwHeap.NoneRetained` | src/server/chat/core/memwatch.c:1874-1888 | the live count is the length of the chain exactly when no no-mans-land block is retained |
| `MwHeap.Heap.Unlink` | src/server/chat/core/memwatch.c:1572-1597 | unlinking a block leaves the well-formed chain of the others |
| `MwHeap.Heap.FreeUp` | src/server/chat/core/memwatch.c:2081-2115 | only no-mans-land blocks are released; live blocks, count and bytes are unchanged; one is released before each trial allocation, and it succeeds at the first trial that does; failure means none is left |
| `MwHeap.Heap.Malloc` | src/server/chat/core/memwatch.c:862-944 | it answers a block if and only if the size does not overflow, the limit is met and the allocator says yes at once or again after a successful trial; the block is new and linked in, and count and bytes grow by exactly one block of that size; refusal changes no live block |
| `MwHeap.Heap.IsOwned` | src/server/chat/core/memwatch.c:1921-1981 | nothing changes, and a pointer is owned exactly when it is a block of the chain, or a readable foreign block that passes the checksum while its neighbours point back to it or no no-mans-land block is retained |
| `MwHeap.Heap.RelinkForeign` | src/server/chat/core/memwatch.c:1604-1888 | repairing a foreign block of an intact heap changes nothing and answers 1 exactly when nothing is retained |
| `MwHeap.Heap.Free` | src/server/chat/core/memwatch.c:1050-1151 | freeing a live block takes exactly it out of the live blocks, whether it is unlinked or retained; NULL, foreign and already freed pointers change nothing; the heap stays valid if and only if the pointer is no foreign block that the ownership test mistakes for its own |
| `MwRuns.WildFree` | src/server/chat/core/memwatch.c:1050-1151 | freeing such a foreign block on a heap with one live block leaves that block live and the count 0 |
| `MwRuns.RunCalls` | src/server/chat/core/memwatch.c:862-1151 | over every run of malloc, realloc, free and free-up, with every behaviour of the allocator, every mixture of valid, NULL and already freed blocks and whatever other memory can be read, the chain stays well formed, count and bytes stay those of the live blocks, and a met limit stays met; a block handed out is live exactly when no later call gave it back, and the live blocks are these and the ones live before; without a limit, a call the allocator serves at once gets a block exactly when it is a malloc, a realloc of NULL, or a realloc of a held block to a size above 0 |
| `MwHeap.Heap.Realloc` | src/server/chat/core/memwatch.c:946-1026 | NULL allocates, size 0 frees; a live block is replaced by a new one of the size asked for if and only if the net change is within the limit, the size does not overflow and the allocator says yes, and stays with all other live blocks otherwise; a met limit stays met; the heap stays valid if and only if no mistaken foreign block was freed |
| `MwHeap.Heap.Repair` | src/server/chat/core/memwatch.c:1604-1888 | repairing one damaged block makes the whole heap, with its accounting, valid again; the answer is 1 exactly when nothing is retained |
| `MwRuns.RepairedButNo` | src/server/chat/core/memwatch.c:1858-1888 | a heap of two blocks, one retained, repaired perfectly with answer 0 |
| `JsonLayout.NumberLexes` | src/server/base/logic/json_serializer.cc:505-579 | every number of section 2.4 of RFC 4627 followed by a character outside `0-9 . e E` is read whole |
| `JsonLayout.NumLenIsNumber` | src/server/base/logic/json_serializer.cc:544-579 | every number token is a number of section 2.4 of RFC 4627 |
| `JsonLayout.BodyIsValid` | src/server/base/logic/json_serializer.cc:581-624 | the contents of every string token are whole escapes and plain characters |
| `JsonLayout.ValidBodyLexes` | src/server/base/logic/json_serializer.cc:581-624 | such contents between quotes are read whole, whatever follows |
| `JsonLayout.ValidBodyDecodes` | src/server/base/logic/json_serializer.cc:120-178 | decoding a string token never fails |
| `JsonLayout.FillerSkips` | src/server/base/logic/json_serializer.cc:180-212 | white space and complete comments are skipped whole, whatever follows |
| `JsonLayout.LayoutToks` | src/server/base/logic/json_serializer.cc:432-503 | the tokens of a text are those of its leading lexemes, whatever fillers stand between them, and then those of the rest, whatever that is |
| `JsonLayout.LayoutIndependence` | src/server/base/logic/json_serializer.cc:649-668 | two texts that differ in white space and comments only have the same tokens, also when an invalid token follows |
| `JsonLayout.EveryTextIsALayout` | src/server/base/logic/json_serializer.cc:432-503 | every text is a sequence of lexemes and fillers followed by nothing or an invalid token |
| `JsonGrammar.DepthIsBounded` | src/server/base/logic/json_serializer.cc:279-284 | no value nested deeper than 100 is ever built |
| `JsonSyntax.ParserIsGrammar` | src/server/base/logic/json_serializer.cc:279-430 | on every token sequence, from every position and depth, `BuildValue` succeeds if and only if a value of the RFC 4627 grammar (with trailing commas where they are allowed) stands there, nested no deeper than 100, whose numbers and strings have values; it answers with the meaning of that value and the position behind it |
| `JsonSyntax.LastKeyWins` | src/server/base/logic/json_serializer.cc:355-418 | a key that an object repeats has its last value, every other key its own, and the entries are in key order |
| `JsonText.RootIsBracketed` | src/server/base/logic/json_serializer.cc:286-293 | at the root only a list or a dictionary is accepted; apart from that it is read like any other value |
| `JsonText.NumberDecodes` | src/server/base/logic/json_serializer.cc:101-118 | a number token becomes a 64-bit integer when it is a whole number in range, else a real when it is a finite one, else it is refused |
| `JsonText.NumberIff` | src/server/base/logic/json_serializer.cc:505-579 | the numbers of the lexical level are those of section 2.4 of RFC 4627, its four parts written out |
| `JsonText.PlaceValue` | src/server/base/logic/json_serializer.cc:108-110 | digits count in tens, the first one most |
| `JsonText.StringIff` | src/server/base/logic/json_serializer.cc:19-178 | the text between two quotes is valid and decodes to a string if and only if it spells it, escape by escape: the nine short escapes, two hexadecimal digits behind `x`, four behind `u`, in either case |
| `JsonText.UnicodeEscape` | src/server/base/logic/json_serializer.cc:159-165 | every code below 65536 is what its four hexadecimal digits decode to, in either case |
| `JsonText.ByteEscape` | src/server/base/logic/json_serializer.cc:153-157 | every code below 256 is what its two hexadecimal digits decode to |
| `JsonText.FixedLexemes` | src/server/base/logic/json_serializer.cc:432-503 | the texts of the three words and the six punctuation marks |
| `JsonText.StringLexeme` | src/server/base/logic/json_serializer.cc:581-624 | a string token is a quoted text that spells some string |
| `JsonText.LayoutIff` | src/server/base/logic/json_serializer.cc:180-212 | what is skipped between tokens is white space and comments: `//` to the first line end, `/*` to the first `*/` |
| `JsonText.UnclosedComment` | src/server/base/logic/json_serializer.cc:185-212 | a comment that does not end hides the rest of the text and is no error |
| `JsonText.PrintedCharacters` | src/server/base/logic/string_escape.cc:17-48 | the seven escapes as they are printed; every other character is printed as it is |
| `JsonText.PrintedScalar` | src/server/base/logic/json_serializer.cc:680-748 | the printed words, signs and quotes |
| `JsonText.PrintedList` | src/server/base/logic/json_serializer.cc:749-770 | a list is printed as its elements with `,` between them in `[` and `]`, in the pretty form with spaces behind commas and inside the brackets |
| `JsonText.PrintedDictionary` | src/server/base/logic/json_serializer.cc:772-808 | a dictionary is printed as its entries with `,` between them in braces, in the pretty form each on its own line behind three spaces for every level |
| `JsonPrint.EscapeRoundTrip` | src/server/base/logic/string_escape.cc:79-106 | every string is escaped to valid token contents that decode to it |
| `JsonPrint.IntTextReads` | src/server/base/logic/json_serializer.cc:701-722 | every printed integer is an RFC number that reads back as itself |
| `JsonRoundTrip.RoundTrip` | src/server/base/logic/json_serializer.cc:675-811 | for every list or dictionary without reals, in both forms, parsing the printed text consumes all of it and gives the tree back with int32 widened to int64 when its height is at most 100, and is refused otherwise; the text holds no NUL |
| `JsonRoundTrip.ValueReads` | src/server/base/logic/json_serializer.cc:279-430 | inside any text, at any depth, `BuildValue` reads exactly the printed value and stops behind it |
| `JsonCommas.KeepValue` | src/server/base/logic/json_serializer.cc:335-347 | a comma in front of a bracket that ends a non-empty container changes neither whether a tree is returned nor which one |
| `JsonCommas.TrailingCommaKeepsTree` | src/server/base/logic/json_serializer.cc:324-420 | a text and the same text with other white space and comments and one more trailing comma make the same tree or are both refused, whatever follows |
| `JsonParser.Parser.EatComment` | src/server/base/logic/json_serializer.cc:180-212 | the loops end and move the position behind the comment, or to the NUL |
| `JsonParser.Parser.EatWhitespaceAndComments` | src/server/base/logic/json_serializer.cc:649-668 | the position moves behind exactly the white space and comments |
| `JsonParser.Parser.NextStringMatch` | src/server/base/logic/json_serializer.cc:91-99 | true exactly when the word stands at the position |
| `JsonParser.Parser.ReadInt` | src/server/base/logic/json_serializer.cc:505-524 | the token grows by exactly the digits, at least one, no leading zero unless allowed |
| `JsonParser.Parser.ParseNumberToken` | src/server/base/logic/json_serializer.cc:544-579 | the token is the longest number of the lexical level, or invalid |
| `JsonParser.Parser.ReadHexDigits` | src/server/base/logic/json_serializer.cc:529-542 | true exactly when that many hexadecimal digits follow |
| `JsonParser.Parser.ParseStringToken` | src/server/base/logic/json_serializer.cc:581-624 | the token ends at the first quote outside an escape, or is invalid |
| `JsonParser.Parser.ParseToken` | src/server/base/logic/json_serializer.cc:432-503 | the position moves behind the white space and the token there is returned |
| `JsonParser.DecodeString` | src/server/base/logic/json_serializer.cc:120-178 | the loop decodes the contents of a string token to what they spell |
| `JsonParser.Parser.BuildArray` | src/server/base/logic/json_serializer.cc:316-353 | the loop builds the list of the grammar, or fails exactly where the grammar does |
| `JsonParser.Parser.BuildObject` | src/server/base/logic/json_serializer.cc:355-418 | the loop builds the dictionary of the grammar, or fails exactly where the grammar does |
| `JsonParser.Parser.BuildValue` | src/server/base/logic/json_serializer.cc:279-430 | it ends on every text; the position only moves forward and never passes the NUL; the answer is that of the grammar on the token stream; on success the stack depth is what it was and the position is behind the value |
| `JsonParser.Parse` | src/server/base/logic/json_serializer.cc:251-275 | the sketched entry answers as the grammar does on the tokens of the whole text, and says whether anything is left |
| `JsonPrinter.Printer.SingleEscapeChar` | src/server/base/logic/string_escape.cc:17-48 | exactly the characters with a short escape are handled, by appending it |
| `JsonPrinter.Printer.AppendQuoted` | src/server/base/logic/string_escape.cc:79-106 | the loop appends the quoted, escaped string |
| `JsonPrinter.Printer.BuildJSONString` | src/server/base/logic/json_serializer.cc:675-811 | exactly the printed form of the tree is appended, in both forms |
| `JsonPrinter.Printer.BuildList` | src/server/base/logic/json_serializer.cc:749-770 | the loop appends the printed list |
| `JsonPrinter.Printer.BuildDictionary` | src/server/base/logic/json_serializer.cc:772-808 | the loop appends the printed dictionary, keys in ascending order |
| `JsonPrinter.Reread` | src/server/base/logic/json_serializer.cc:251-811 | printing and parsing as they run give the tree back, nothing left over, exactly when its height is at most 100 |
| `JsonValue.PutAscending` | src/server/base/logic/base_values.cc:392-402 | setting a key keeps the entries in key order |
| `JsonValue.LessIff` | src/server/base/logic/base_values.cc:392-402 | the order of the keys is the lexicographic one |
| `ValueTree.FindPut` | src/server/base/logic/base_values.cc:392-402 | setting a key changes the lookup of that key only |
| `ValueTree.FindErase` | src/server/base/logic/base_values.cc:623-636 | removing a key changes the lookup of that key only |
| `ValueTree.SameLookups` | src/server/base/logic/base_values.cc:404-418 | two dictionaries with the same lookups are equal |
| `ValueTree.MergeLookup` | src/server/base/logic/values.cc:677-695 | where both dictionaries have a dictionary under a key stands the merge of the two; under any other key of the second stands its value, under a key it lacks the first one's |
| `ValueTree.MergePath` | src/server/base/logic/values.cc:677-695 | the same at every dotted path: two dictionaries are merged, else the second one's value stands there; where it has none, the first one's, unless the second has something other than a dictionary on the way: then nothing |
| `ValueTree.MergeIdempotent` | src/server/base/logic/values.cc:677-695 | merging the same dictionary a second time changes nothing, at any depth |
| `ValueTree.MergeOrdered` | src/server/base/logic/values.cc:677-695 | merging keeps every nested dictionary in key order |
| `ValueTree.GetDotted` | src/server/base/logic/base_values.cc:404-418 | looking up a longer path is looking up its rest in the dictionary at its beginning |
| `ValueTree.SetGet` | src/server/base/logic/base_values.cc:345-364 | after setting a path, looking it up gives the value |
| `ValueTree.SetGetBelow` | src/server/base/logic/base_values.cc:345-364 | below the path only the new value is seen |
| `ValueTree.SetGetAbove` | src/server/base/logic/base_values.cc:345-364 | above the path stands a dictionary: the one that was there, changed below only, or a new one in place of anything else |
| `ValueTree.SetGetOther` | src/server/base/logic/base_values.cc:345-364 | every path that is no component prefix or extension of it is unchanged |
| `ValueTree.RemoveIffGet` | src/server/base/logic/base_values.cc:608-621 | removing succeeds exactly when looking up does, with the same value |
| `ValueTree.RemoveGet` | src/server/base/logic/base_values.cc:608-636 | afterwards exactly the path and its extensions are gone, and unrelated paths keep their values |
| `ValueTree.PruneKeepsLeaves` | src/server/base/logic/values.cc:16-58 | the copy has no empty list or dictionary and exactly the original's scalars under the same keys in the same order; there is no copy exactly when there are no scalars |
| `ValueTree.PruneFull` | src/server/base/logic/values.cc:16-58 | a tree without empty children is copied unchanged |
| `ValueTree.PrunePath` | src/server/base/logic/values.cc:35-54 | at every dotted path of the copy stands the copy of what was there, or nothing when that has none |
| `ValueTree.PruneSplits` | src/server/base/logic/values.cc:18-33 | the elements of a copied list are, in order, the copies of those elements that have one |
| `ValueTree.RemoveUnfolds` | src/server/base/logic/base_values.cc:608-621 | removing the last component from the dictionary above it, as the code does, is removing step by step from the first component on |
| `ValueHeap.ValueNode.SetKey` | src/server/base/logic/base_values.cc:392-402 | setting a node under a key changes that entry only, in place; the node itself is what is found there, and it is handed over with everything it owns |
| `ValueHeap.ValueNode.Append` | src/server/base/logic/values.cc:850-853 | appending a node to a list hands it over with everything it owns |
| `ValueHeap.ValueNode.DeepCopy` | src/server/base/logic/values.cc:131-324 | the copy has the same value and consists of new nodes only, at every depth, list elements and scalars included |
| `ValueHeap.ValueNode.CopyList` | src/server/base/logic/values.cc:874-881 | the loop over the elements copies each of them, in order |
| `ValueHeap.ValueNode.CopyDictionary` | src/server/base/logic/values.cc:314-324 | the loop over the entries, in any order, copies each of them under its key |
| `ValueHeap.ValueNode.MergeDictionary` | src/server/base/logic/values.cc:677-695 | in place, whatever the order of the keys, the receiver becomes the merge; the argument keeps its nodes and its value, and the two share no node afterwards, at any depth |
| `ValueHeap.ValueNode.GetPath` | src/server/base/logic/base_values.cc:404-418 | the loop that shortens the path reaches the node at the path, one of this tree, or answers nothing exactly when there is none |
| `ValueHeap.ValueNode.SetPath` | src/server/base/logic/base_values.cc:345-364 | the tree of nodes becomes the one with the value set at the path, new dictionaries standing in for everything else on the way; the node handed in is the one found at the path and belongs to the tree |
| `ValueHeap.ValueNode.RemoveKey` | src/server/base/logic/base_values.cc:623-636 | the node is handed out, no longer part of the tree, and its entry is gone, or nothing changes when there is none |
| `ValueHeap.ValueNode.RemovePath` | src/server/base/logic/base_values.cc:608-621 | the node at the path is handed out, no longer part of the tree, or nothing changes when there is none |
| `ClockTask.TimerRun` | src/server/chat/core/clock_task.c:16-76 | under every interleaving of ticks with adds of any timers and deletes of others, a timer with period p, wherever it stands in the list, fires exactly at the multiples of p, n times or for ever, and is listed exactly until the n-th time |
| `ClockTask.FiresExactlyAt` | src/server/chat/core/clock_task.c:16-44 | a timer with count n fires at p, 2p, ..., np, at no other tick, and is then gone; it is handed over with the count that is left |
| `ClockTask.AddedFiresExactlyAt` | src/server/chat/core/clock_task.c:16-76 | the same from the moment it is added behind the timers already listed |
| `ClockTask.NeverFires` | src/server/chat/core/clock_task.c:22-40 | a timer whose period is not above its clock never fires and stays listed, unless its count is 0 |
| `ClockTask.WithoutMembers` | src/server/chat/core/clock_task.c:46-60 | a timer is gone after a deletion exactly when it has that id and that opcode |
| `ClockTask.WithoutSplits` | src/server/chat/core/clock_task.c:46-60 | two stretches of the list are deleted from separately, so the other timers keep order and number |
| `ClockTask.RunSplits` | src/server/chat/core/clock_task.c:16-76 | over every run the timers in the front of the list neither see nor change those behind them or added later |
| `ClockTask.ZeroCount` | src/server/chat/core/clock_task.c:25-40 | a timer added with count 0 is dropped at the first tick without firing, unless its period is 1: then it fires for ever |
| `ClockTask.Clock.OnTimeMsg` | src/server/chat/core/clock_task.c:16-44 | the walk that unlinks while it goes leaves a well-formed list of exactly the timers a tick keeps, and hands over exactly those that fire, in order |
| `ClockTask.Clock.Delete` | src/server/chat/core/clock_task.c:46-60 | exactly the timers with both that id and that opcode are unlinked; none of them is listed afterwards |
| `ClockTask.Clock.Add` | src/server/chat/core/clock_task.c:62-76 | the new timer is appended with its clock at 0 |
| `ClockTask.RunEvents` | src/server/chat/core/clock_task.c:16-76 | every run of ticks, adds and deletes on the intrusive list is the run that TimerRun speaks about, and exactly the timers that fire are handed over, in order |
| `TextBuffer.LongTextReadsIff` | src/server/chat/core/buffer.c:135-167 | the decimal text of a long reads back as the long if and only if it is not LONG_MIN, whose text is `-0` |
| `TextBuffer.Ltostr` | src/server/chat/core/buffer.c:135-167 | sign, digits and NUL are written at the place, last digit first and then reversed in place, and nothing else in the array changes |
| `TextBuffer.Reverse` | src/server/chat/core/buffer.c:157-164 | the swaps turn the stretch around and touch nothing outside it |
| `TextBuffer.HexTextDecodes` | src/server/chat/core/buffer.c:259-289 | the hexadecimal text has an even number of digits, at least two and no more than one above what the value needs, and decodes to the value |
| `TextBuffer.WriteHex` | src/server/chat/core/buffer.c:281-286 | the shifting loop writes exactly those digits and a NUL |
| `TextBuffer.Buffer.PrepareAppend` | src/server/chat/core/buffer.c:291-312 | there is room for the bytes asked for, the capacity is a multiple of 64 and never shrinks, the text is kept |
| `TextBuffer.Buffer.AppendString` | src/server/chat/core/buffer.c:211-228 | the text grows by exactly the string, NUL-terminated within the capacity |
| `TextBuffer.Buffer.AppendStringLen` | src/server/chat/core/buffer.c:231-247 | the text grows by exactly the given bytes, NUL-terminated within the capacity |
| `TextBuffer.Buffer.AppendLong` | src/server/chat/core/buffer.c:169-180 | the text grows by exactly the decimal text, and 32 bytes are always enough |
| `TextBuffer.Buffer.AppendLongHex` | src/server/chat/core/buffer.c:259-289 | the text grows by exactly the hexadecimal text |
| `TextBuffer.RunAppends` | src/server/chat/core/buffer.c:135-312 | after every sequence of appends to an empty buffer the text is the concatenation of the appended texts, NUL-terminated within a capacity that is a multiple of 64 |
| `ChatCodec.DecodeEncode` | src/server/public/protocol/data_packet.cc:4-72 | an integer of one, two, four or eight bytes reads back as itself |
| `ChatCodec.ReadAllWritten` | src/server/chat/base/protocol.cc:6-372 | reading a list of fields gives exactly the values written and leaves what follows |
| `ChatCodec.SameFields` | src/server/chat/base/protocol.cc:31-632 | for every operation code the reader reads the fields the writer writes, by name, width and order |
| `ChatCodec.DeclaredWidth` | src/server/chat/base/comm_head.h:57-223 | the declared size of every operation code is the sum of its fields, text and entries |
| `ChatCodec.SizeIsDeclared` | src/server/chat/base/protocol.cc:374-632 | exactly as many bytes are written as the head declares, and that length is reported if and only if the caller's head does not give packet length 31 and data length 0 |
| `ChatCodec.ListLength` | src/server/chat/base/protocol.cc:255-257 | the number of list entries is recovered from the data length although another constant is subtracted than was added |
| `ChatCodec.OffsetIff` | src/server/chat/base/protocol.cc:77-347 | the text length computed from the data length is right for every operation code but USER_LOGIN_FAILED and TEXT_CHAT_PRIVATE_RECV, where it is too large |
| `ChatCodec.RoundTripIff` | src/server/chat/base/protocol.cc:6-632 | unpacking the reported bytes gives head, fields, text and list back if and only if the operation code is none of those two and the caller's head is no bare one; otherwise the reader goes outside the packet, or refuses it |
| `ChatCodec.Failures` | src/server/chat/base/protocol.cc:72-632 | a packet of zeros for each of the three failures, and one that comes back |
| `ChatLayout.HeadLayout` | src/server/chat/base/protocol.h:9-21 | the bytes of the head: its own length at 0, operation code at 4, length of the rest at 8, time at 12, message type at 16, compression flag at 18, message id at 19, reserved at 27 |
| `ChatLayout.BodyLayout` | src/server/chat/base/protocol.cc:391-632 | behind the head stands the platform id, whatever the operation code, and the text is the end of the packet |
| `ChatLayout.BytesOfAnInteger` | src/server/public/protocol/data_packet.cc:38-53 | a written 32-bit integer is four bytes, the least significant first, the sign in the last one |

## Left out

- Locks and condition variables: a region under `me->lock` is one step, a signal
  releases a chosen set of waiting workers, at least one if any waits.
- `PoolProtocol`: the busy and idle rings are sequences there; the pointer rings they
  stand for are those of `BaseRing`.
- `base_threadpool_set_thread_max`, busy trimming, termination and the length of a
  timed wait: a stopped busy worker is put on a second ring, so no clean statement
  rests on them.
- A worker whose list element cannot be allocated exits without lowering `thd_cnt`;
  the protocol assumes the allocation succeeds.
- Cancelling with owner NULL: `wait_on_busy_threads` takes every busy worker between
  two tasks for one of that owner's, and may wait for ever.
- `PoolSteps.LookReturnsIff`: for that reason not for owner NULL.
- Priorities outside 0..255: the order results require them to be in range; the
  pointer operations are proved for all priorities.
- Cancelled task objects are unlinked and never recycled or freed by the source; the
  model leaves them unreachable as well.
- `PoolProtocol.RunWatchedIff`: no guarantee that a scheduled task is run in time,
  because a worker waiting without a timeout is not woken for it by the code.
- The emergency branch of `mwRelink`, the grab list, log files and address probing;
  `mwIsSafeAddr` is membership in a finite set.
- `MwHeap.Heap.IsOwned`: the checksum is a flag, its arithmetic is not modelled, and the
  blocks of the chain are undamaged. The code also reads a neighbour that is no safe
  address; the model reads its links like any other's.
- `MwRuns.RunCalls`: a new block is a new object, so reuse of the addresses of freed
  blocks is not modelled.
- The totals, high-water marks and per-module statistics of `memwatch.c`, and its
  no-mans-land counters; overflow buffers around a block are the parameter `overhead`.
- `JsonPrint.Printable`: reals and binary values are not printed; a real is known to
  the parser only through a parameter that says which texts are finite numbers.
- UTF-8 and wide strings: a text is a sequence of character codes without NUL and the
  conversions are the identity, `WideToASCII` on the keys of printed dictionaries
  included, which are ASCII for that reason; the byte order mark is not skipped.
- The error code, line and column recorded by `SetErrorCode`.
- The public `Deserialize` is a stub in the source; `JsonParser.Parse` follows the
  body commented out there, without its error reporting.
- `ValueHeap`: the subclasses of `Value` are one class with a type tag. `SetPath` and
  `RemovePath` are recursions where the source finds the last dictionary with a loop,
  because every dictionary on the way changes its abstract value. Setting NULL, which the
  source ignores, and deleting replaced values are not modelled.
- Copying without empty children is modelled on values (`ValueTree`), since it changes
  nothing.
- `DictionaryValue::DeepCopy` and `Equals` of `base_values.cc` are stubs, and
  `DictionaryValue::Equals` of `values.cc` never compares keys; equality here is
  structural.
- Merging is not associative and no such claim is made.
- `ChatCodec`: packets are byte sequences and the cursors of the packet classes are
  not objects; character arrays are NUL-terminated as the reader leaves them; the
  least significant byte comes first; the NUL stored one past `Oppinfo.user_head` and
  the `DumpPacket` printing are not modelled.
- The HTTP and XML serializers, the session cache, database and network code.
- `buffer_copy_string_len` and the raw memory appends, which keep no NUL.
- Overflow of the timers' `int` fields, and what the server does with a timer that
  was handed over and then freed.
