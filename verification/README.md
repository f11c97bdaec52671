# Verified core of the HLE PlayStation BIOS

This project models the algorithmic cores of a high-level emulation of the PlayStation 1 BIOS kernel and proves
what they promise:

- **Main memory** (`Memory`): words, addresses and the constants the modules share.
- **qsort** (`Elements`, `Exchange`, `Partition`, `QSort`): the in-place quicksort with a growing pivot zone, on bytes.
  Byte-wise exchanges are proved to be element swaps and rotations for every width and every aliasing of their
  arguments, and the sort is built on that.
- **The user heap** (`Chunks`, `HeapModel`, `Tiling`, `UserHeap`): first fit with in-band headers and lazy joining of
  free chunks. `HeapModel` says what a call does to the list of chunks; `Tiling` ties the list to the words of
  memory; `UserHeap.Heap` is the imperative allocator.
- **The kernel heap** (`KernelHeap`, `KernelInit`): the bump allocator, the tables the kernel places in it, and what
  memory holds once the kernel has set them up.
- **Threads** (`Threads`, `ThreadKernel`): one register file and control blocks in memory behave as n independent
  register files over arbitrary runs.
- **Events** (`EventModel`, `EventRuns`, `EventProperties`, `EventRoom`, `EventLaws`, `EventKernel`): the event table
  and the asynchronous queue, with callbacks that run in the middle of a delivery and may make any of the calls. A
  callback is any finite script of calls, nested to any finite depth; every run leaves a log of elementary steps, and the
  properties are about that log. `EventLaws` says which log a delivery and a drain must leave, the calls of their
  callbacks included, and what each single call does to the table and the queue.
- **Interrupt handler chains** (`IrqChains`, `IrqWalk`, `IrqVisits`, `IrqRestarts`, `IrqDispatch`): four intrusive
  singly linked lists in raw memory and the walk over them. While it is under way its callbacks may dequeue any node
  and enqueue any fresh one, on any chain, the nodes the walk is at or still comes to included. `IrqWalk` says where
  the walk stands after each call, `IrqVisits` which nodes it visits, `IrqRestarts` when it ends.
- **The memory card directory** (`Directory`, `CardFile`): creating and renaming files in place, with link chains and
  XOR checksums.

The modules named after a class hold the imperative code, over arrays and fields. Its methods are proved equal to
functions on values, and the properties are lemmas about those functions. A comparator, a verifier or a callback is a
parameter: an arbitrary function, or an arbitrary finite script of calls. `EventKernel.Signal` and
`UserHeap.WholeHeapBlock` are programs that make such calls. Machine words are integers below 2^32, with
every wrap-around written out.

Where the code does not do what one would expect, the exact condition is proved:

- `malloc` hands out too small a block exactly on the three requests whose rounding wraps (0xFFFFFFFD to 0xFFFFFFFF),
  and only such a block makes a later scan forget blocks in use (`ShortBlockIffWrapped`, `ScanSafeIffNoZero`,
  `WrappedRequestIsLost`). The scan leaves adjacent free chunks exactly when it stops at a zero header right behind
  free chunks (`CoalescedSeparatesIff`).
- A thread opened in the slot of the running thread does not start: a switch to it goes on where the running thread
  made the switch. The slot is free for that exactly after the running thread closed itself
  (`OpenedThreadStarts`, `ReopenedOverSelf`).
- The kernel tables fit their blocks exactly when no table size wraps in 32 bits (`TablesApartIffNoWrap`). A thread
  count for which initialisation succeeds with overlapping tables is given (`WrappedThreadTable`).
- Enqueueing a node leaves sound chains exactly when the node is fresh, and chains that still end exactly when its own
  chain does not have it (`EnqueueHoldsIff`, `EnqueueEndsIff`).
- `SysDeqIntRP` of a null node damages a chain exactly when the chain is nonempty and the word at address zero is not
  zero (`NullDequeueHoldsIff`, `NullDequeueDamages`).
- A node registered when the interrupt walk begins is visited exactly when no callback dequeues it before its chain is
  begun or while another node of the chain still comes before it (`VisitedIffNotMissed`).
- The interrupt walk of a chain ends exactly when its callbacks at some point stop enqueueing nodes it holds but that
  were dequeued before it came to them (`EndsIffRestartsStop`). Two handlers that each move the other one to the front
  never stop (`TwoRoundsRepeat`, `NeverEnds`).
- A drain makes all ports idle exactly when every busy port has an event in the queue or some queued event has no
  valid port. The busy bit an accepted `_card_info` sets is cleared by the next drain exactly when an event queued
  before clears it, or the queue had room and the port is below 16, or is 31 (`DrainFreesPortsIff`,
  `CardInfoClearedIff`).
- The handle of an event names its slot exactly when the slot is one of the first 0x10000, and that of a thread when it
  is one of the first 256; games can configure larger tables (`HandleNamesSlotIff`, `OpenedIsDelivered`,
  `HandleNamesThreadIff`).
- A file that does not fit is created without its last blocks, and frames of other files that follow the first free
  frame are overwritten (`CreatedCompleteIffFits`, `CreateSparesFilesIff`, `CreateKeepsChain`).
- The first frame of a new file declares the size of its blocks exactly when there are fewer than eight
  (`DeclaresSizeIff`, `EightBlocksDeclareNothing`).
- A renamed file is hidden by an earlier file of the new name (`RenamedIsFoundIff`).

## Model

| member | source | states |
|---|---|---|
| `Exchange.ExchangeIsSwap` | src/psxbios.cpp:708-717 | exchanging two slots byte by byte swaps the two elements, for every nonzero width and also when the slots are the same, and leaves every byte outside the array alone |
| `Exchange.RotationIsRotate` | src/psxbios.cpp:719-729 | the three-way byte exchange rotates three elements whichever of the three slots coincide, and leaves every byte outside the array alone |
| `Exchange.ExchangeBytes` | src/psxbios.cpp:708-717 | the loop of qexchange leaves the buffer that the byte-by-byte specification gives |
| `Exchange.RotateBytes` | src/psxbios.cpp:719-729 | the loop of q3exchange leaves the buffer that the byte-by-byte specification gives, aliasing included |
| `Exchange.QExchange` | src/psxbios.cpp:708-717 | in memory, the elements at the two slots are swapped and no other byte of the buffer changes |
| `Exchange.Q3Exchange` | src/psxbios.cpp:719-729 | in memory, the elements at the three slots are rotated and no other byte outside the array changes |
| `Elements.RotatePermutes` | src/psxbios.cpp:719-729 | the rotation loses no element, whatever slots coincide |
| `Elements.PivotSign` | src/psxbios.cpp:743-766 | comparing with any element of the pivot zone tells how an element compares with the pivot, so the pass may move the element it compares with |
| `Elements.PairsIsHalfSquare` | src/psxbios.cpp:731-790 | the bound on calls of the comparator in closed form, n(n-1)/2 |
| `Elements.PairsSplit` | src/psxbios.cpp:776-785 | splitting around a nonempty pivot zone pays for the comparisons of the pass |
| `Partition.MiddleSlot` | src/psxbios.cpp:739-740 | the pivot address computed from byte distances is the middle slot of the range |
| `Partition.MiddleAddress` | src/psxbios.cpp:739-740 | the code's arithmetic yields the address of the middle slot |
| `Partition.QsCmp` | src/psxbios.cpp:694-706 | a comparison asks the comparator about the two elements' bytes |
| `Partition.PassTieBelow` | src/psxbios.cpp:745-748 | an element that ties with the pivot joins the zone from below: the three zones and the permutation are kept |
| `Partition.PassTieAbove` | src/psxbios.cpp:757-760 | an element that ties joins the zone from above, and what is known of the element waiting at i stays true |
| `Partition.PassShiftUp` | src/psxbios.cpp:761-766 | with the left side full, a smaller element from the right moves the zone up by a rotation, also when its slots coincide |
| `Partition.PassTrade` | src/psxbios.cpp:767-770 | two misplaced elements change sides |
| `Partition.PassShiftDown` | src/psxbios.cpp:787-788 | with the right side full, the waiting element moves the zone down by a rotation |
| `Partition.LeftStep` | src/psxbios.cpp:744-753 | one comparison settles the element at i, in the zone or below it, or shows that it is above the pivot and waits |
| `Partition.RightSide` | src/psxbios.cpp:755-774 | the inner cycle ends, counts one comparison per element it classifies, keeps the zones, and either trades an element or leaves nothing above the zone unclassified |
| `Partition.PartitionPass` | src/psxbios.cpp:739-789 | whatever the comparator answers, a pass over n elements ends, makes exactly n-1 comparisons, stays inside the array and loses no element; a comparator consistent on those elements gets everything below, in and above the pivot zone right |
| `QSort.DistanceOrder` | src/psxbios.cpp:777 | comparing byte distances compares element counts |
| `QSort.SideDone` | src/psxbios.cpp:776-785 | once one side is in order, only the other side may still be out of order |
| `QSort.DepthStep` | src/psxbios.cpp:777-785 | recursing into the side that is no larger keeps the depth at most floor(log2 n) + 1 |
| `QSort.RoundDone` | src/psxbios.cpp:737-785 | a pass and the recursion keep order, permutation, comparison count and depth of the whole sort |
| `QSort.SmallerSide` | src/psxbios.cpp:776-785 | the side that is no larger is the one sorted recursively, and the other is what the loop goes on with |
| `QSort.QSortMain` | src/psxbios.cpp:731-790 | the range is a permutation of what it was, in order if the comparator is a total preorder on its elements, within the bounds on calls and depth, and nothing outside it changes |
| `QSort.QSortCall` | src/psxbios.cpp:792-808 | the BIOS call: bytes outside the array are untouched, the elements are a permutation, in order whenever the comparator is a total preorder on the elements of the array, at most n(n-1)/2 comparisons and depth at most floor(log2 n) + 1, for every comparator, count and width |
| `Chunks.CoalescedTotal` | src/psxbios.cpp:844-881 | the scan keeps the exact tiling of the heap, broken or not |
| `Chunks.CoalescedSeparatesIff` | src/psxbios.cpp:844-881 | the scan makes no zero header, and leaves no two adjacent free chunks exactly when it meets no zero header or has no free chunk right before the first one |
| `Chunks.CoalescedKeepsLive` | src/psxbios.cpp:844-881 | every chunk in use stays in place with its size |
| `Chunks.FirstFitIsLowestRun` | src/psxbios.cpp:883-920 | first fit after the scan is the lowest maximal run of free chunks that is large enough, and fails exactly when there is none |
| `HeapModel.MallocIsFirstFit` | src/psxbios.cpp:836-933 | malloc fails exactly when no maximal run of free chunks reaches the rounded request, and otherwise gives the start of the lowest that does; tiling and blocks in use are kept |
| `HeapModel.TakenFacts` | src/psxbios.cpp:913-926 | taking or splitting a chunk adds one block of the wanted size and changes no other |
| `HeapModel.FreedFacts` | src/psxbios.cpp:935-945 | free takes exactly that block out of use and keeps the tiling |
| `HeapModel.LiveApart` | src/psxbios.cpp:836-933 | blocks in use never overlap, headers included |
| `HeapModel.RunOwes` | src/psxbios.cpp:810-945 | over every run of mallocs and frees of held blocks, the chunks in use are exactly the blocks held, each large enough |
| `HeapModel.RunKeepsBlocksApart` | src/psxbios.cpp:810-945 | after every such run from a fresh heap, held blocks lie inside the heap, apart from each other and from every header, hold what was asked for, and no header is zero |
| `HeapModel.AllFreedGivesAll` | src/psxbios.cpp:834-933 | once everything is freed, a request for the whole heap less one header succeeds |
| `HeapModel.ScanSafeIffNoZero` | src/psxbios.cpp:850-857 | the scan leaves the blocks in use alone exactly when no header is zero |
| `HeapModel.ShortBlockIffWrapped` | src/psxbios.cpp:887-926 | a block smaller than the request, and a zero header, come exactly from requests whose rounding wraps |
| `HeapModel.WrappedRequestIsLost` | src/psxbios.cpp:851-887 | on a concrete heap such a request succeeds and the next scan takes the block back |
| `Tiling.HeaderBits` | src/psxbios.cpp:845-851 | reading a header recovers size and free bit, and the word is zero exactly for an empty chunk in use |
| `Tiling.TilesJoin` | src/psxbios.cpp:868-873 | writing one header turns a run of chunks into a single chunk |
| `Tiling.ScanningClose` | src/psxbios.cpp:868-873 | closing a collection in memory is closing it in the list, and writes only free memory |
| `Tiling.ScanningBreaks` | src/psxbios.cpp:850-857 | the recovery from a zero header makes the rest of the heap one free chunk |
| `Tiling.TakeWhole` | src/psxbios.cpp:914-917 | clearing the free bit takes the chunk |
| `Tiling.SplitFree` | src/psxbios.cpp:921-926 | writing two headers splits the chunk, and writes only free memory |
| `Tiling.FreeTiles` | src/psxbios.cpp:941-943 | setting the free bit frees the chunk |
| `UserHeap.Heap.InitHeap` | src/psxbios.cpp:986-1011 | the heap has the size given, rounded down to a multiple of four, unless it would reach the end of the 8 MB mirror: it then ends right before the last word of that; it is one free chunk, and only its first word is written |
| `UserHeap.ClampedSizeMeans` | src/psxbios.cpp:998-1001 | the same of the size alone, for every start and size, sums that wrap in 32 bits included |
| `UserHeap.WholeHeapBlock` | src/psxbios.cpp:834-1011 | the first malloc after InitHeap gets the whole heap but one header, and the heap is as large as was asked for when nothing is cut off |
| `UserHeap.Heap.SetUp` | src/psxbios.cpp:838-842 | memory is tiled by the chunks afterwards, also on the first malloc after InitHeap, and what the scan will make of them is unchanged |
| `UserHeap.Heap.ScanChunk` | src/psxbios.cpp:845-877 | one round of the scan keeps memory and the list of chunks in step and moves on |
| `UserHeap.Heap.JoinFree` | src/psxbios.cpp:844-881 | memory holds the joined chunks, and only free memory was written |
| `UserHeap.Heap.Search` | src/psxbios.cpp:883-920 | the search ends at the first free chunk that is large enough, or reports that there is none |
| `UserHeap.Heap.Take` | src/psxbios.cpp:913-926 | the chunk is taken whole or split in memory, and only free memory is written |
| `UserHeap.Heap.Alloc` | src/psxbios.cpp:810-933 | the call on memory is the call on the list of chunks, returns the payload address or 0, and writes no byte of a block in use |
| `UserHeap.Heap.Free` | src/psxbios.cpp:935-945 | exactly that chunk becomes free and exactly its header is written; null changes nothing |
| `KernelHeap.RoundingFits` | src/psxbios.cpp:1622-1623 | checking the size before rounding suffices, because what is left is a multiple of four |
| `KernelHeap.SysMallocConserves` | src/psxbios.cpp:1618-1635 | address plus size stays the same, the size never underflows, and the block covers the request |
| `KernelHeap.BlocksInOrder` | src/psxbios.cpp:1618-1635 | the blocks of every successful run are aligned, inside the arena, large enough and disjoint |
| `KernelHeap.TablesApartIffNoWrap` | src/psxbios.cpp:2921-2941 | when initialisation succeeds, the four kernel tables fit their disjoint blocks exactly when no size wraps in 32 bits |
| `KernelHeap.ThreadTablesFit` | src/psxbios.cpp:2926-2944 | the process and thread tables placed so are the ones thread switching relies on |
| `KernelHeap.WrappedThreadTable` | src/psxbios.cpp:2930-2933 | with a concrete thread count whose table size wraps, initialisation succeeds and the control block of the first thread reaches into the next table |
| `KernelHeap.KernelMemory.Malloc` | src/psxbios.cpp:1618-1635 | the call in memory: the block is cleared and nothing else written |
| `KernelHeap.KernelMemory.InitProcessAndThread` | src/psxbios.cpp:2880-2900 | memory then names the tables and the sizes, with thread 0 running; its control block is reserved and every other one free, all zero but for that |
| `KernelHeap.KernelMemory.InitThreads` | src/psxbios.cpp:2894-2899 | only the thread table is written: its first block is reserved, the others are free, and all their other words are zero |
| `KernelInit.AllocTables` | src/psxbios.cpp:2914-2940 | on the arena of fixed size, the four calls of SysMalloc succeed together exactly when the model of the whole run does, and return its blocks |
| `KernelInit.NameTable` | src/psxbios.cpp:2902-2908 | memory names the table and its size, the table is zero, and no other word changes |
| `KernelInit.InitKernelDataStructure` | src/psxbios.cpp:2910-2949 | initialisation succeeds exactly when the four requests fit; then memory names the four tables in the blocks allocated, with their sizes, thread 0 runs and every other thread is free, all control blocks zero but for that, the handler chains are empty and sound, and the event table is all zero, every slot free |
| `Threads.StatusRoundTrip` | src/psxbios.cpp:116-125 | through an exception and back, status bits 4-5 become copies of bits 2-3 and every other bit is kept |
| `Threads.EnterBits` | src/psxbios.cpp:116-118 | entering an exception shifts the six mode bits up by two, the upper two being lost, and keeps all others |
| `Threads.RfeBits` | src/psxbios.cpp:120-122 | returning shifts them down again, leaving bits 4-5, and keeps all others |
| `Threads.SaveResume` | src/psxbios.cpp:1721-1780 | saving and resuming a context returns all registers, hi and lo, with k0 and pc the resumption address |
| `Threads.SavedWords` | src/psxbios.cpp:1721-1755 | where the context keeps each register, hi, lo, the resumption address, the status and the cause |
| `Threads.SaveOutside` | src/psxbios.cpp:1721-1740 | saving writes nothing but the context |
| `Threads.SlotAddress` | src/psxbios.cpp:1880-1881 | the address arithmetic of the code finds the control block |
| `Threads.HandleNamesThreadIff` | src/psxbios.cpp:1840-1870 | the low byte of a thread handle, which ChangeTh and CloseTh take, is the number of its slot exactly when the slot is one of the first 256 |
| `Threads.ChangeHolds` | src/psxbios.cpp:1868-1888 | ChangeTh is a switch between independent register files |
| `Threads.OpenHolds` | src/psxbios.cpp:1806-1842 | OpenTh sets up the first free register file, or answers -1 |
| `Threads.OpenedAnswers` | src/psxbios.cpp:1806-1842 | OpenTh returns the handle of the first free slot, or -1 with nothing written; the five words of the control block it writes, and no other |
| `Threads.CloseHolds` | src/psxbios.cpp:1848-1862 | CloseTh frees a slot and touches no register file but for v0 and pc of the caller |
| `Threads.InterruptHolds` | src/psxbios.cpp:1743-1800 | an interrupt, from the exception entry of the processor to the return, leaves every register file as it was, but for k0 and the status round trip of the running thread |
| `Threads.InterruptReturns` | src/psxbios.cpp:1743-1800 | the interrupted thread goes on at the same address with all its registers, hi and lo, but k0 is that address and the status has made the round trip; no word outside its control block is written |
| `Threads.StepHolds` | src/psxbios.cpp:1716-1888 | every step of the machine is the step of n independent register files |
| `Threads.RunHolds` | src/psxbios.cpp:1716-1888 | the same over every run, whatever the interleaving |
| `Threads.HoldsSomeFleet` | src/psxbios.cpp:2880-2900 | every machine whose memory names its tables is such a fleet |
| `Threads.SwitchedBackToOwnRegisters` | src/psxbios.cpp:1868-1888 | a thread switched back to finds exactly the registers, hi and lo it had, but v0 = 1, k0 = pc = its return address and the status round trip |
| `Threads.OpenedThreadStarts` | src/psxbios.cpp:1831-1840 | a switch to the opened thread has the processor at its function with its stack and global pointer exactly when its slot is not the running thread's, or that thread would go on with the very same |
| `Threads.ReopenedOverSelf` | src/psxbios.cpp:1806-1862 | a thread that closes itself, with every earlier slot taken, and opens another gets its own slot, and a switch to that handle goes on where it was itself, not at the new function |
| `ThreadKernel.Kernel.SaveContextR3K` | src/psxbios.cpp:1721-1727 | the loop writes the registers, hi and lo to the context and nothing else |
| `ThreadKernel.Kernel.RestoreContextR3K` | src/psxbios.cpp:1757-1763 | the loop loads the registers, hi and lo from the context |
| `ThreadKernel.Kernel.SaveContextChangeThread` | src/psxbios.cpp:1729-1740 | the context with the return address, the status after entering an exception, and the cause |
| `ThreadKernel.Kernel.RestoreContextChangeThread` | src/psxbios.cpp:1765-1780 | the processor resumes the context |
| `ThreadKernel.Kernel.ChangeTh` | src/psxbios.cpp:1868-1888 | the call on registers and memory is the switch of the machine model |
| `ThreadKernel.Kernel.OpenTh` | src/psxbios.cpp:1806-1842 | the call on registers and memory is the opening of the machine model, the search loop included |
| `ThreadKernel.Kernel.CloseTh` | src/psxbios.cpp:1848-1862 | the call on registers and memory is the closing of the machine model |
| `ThreadKernel.Kernel.SaveContextException` | src/psxbios.cpp:1743-1755 | the running thread's context with the exception address, the status and the cause |
| `ThreadKernel.Kernel.ReturnFromException` | src/psxbios.cpp:1783-1800 | the current thread's block alone decides what is loaded |
| `ThreadKernel.Kernel.InterruptRoundTrip` | src/psxbios.cpp:1743-1800 | whatever registers and status a handler leaves, the interrupted thread continues with its own, k0 and the status round trip apart |
| `EventRuns.RunTraced` | src/psxbios_event.cpp:37-316 | every run of a script, however deeply its callbacks are nested, is a chain of allowed elementary steps, all logged |
| `EventRuns.DeliverFromTraced` | src/psxbios_event.cpp:45-52 | the delivery loop, with callbacks running inside it, is such a chain |
| `EventRuns.DrainedTraced` | src/psxbios_event.cpp:92-132 | a drain is such a chain |
| `EventProperties.CallbackNeverDelivered` | src/psxbios_event.cpp:47-50 | at no point of any run, not even inside a callback, is a slot with a callback marked delivered |
| `EventProperties.FreeUntilOpened` | src/psxbios_event.cpp:164-171 | a free slot leaves that state exactly when OpenEvent takes it |
| `EventProperties.ReopenedOnlyAfterClose` | src/psxbios_event.cpp:134-178 | between two openings of a slot there is a close: no handle of an open slot is handed out again |
| `EventProperties.DeliveriesConserved` | src/psxbios_event.cpp:194-316 | over every run, marks made equal marks taken by Test or Wait, retracted, discarded and still there |
| `EventProperties.QueueConserved` | src/psxbios_event.cpp:72-106 | over every run, what was queued and accepted is, in that order, what was drained and is still queued |
| `EventProperties.DeliverAllAt` | src/psxbios_event.cpp:37-53 | a delivery logs itself once at its depth, and whatever its callbacks deliver only deeper |
| `EventProperties.DeliveriesInOrder` | src/psxbios_event.cpp:121-130 | the deliveries due are each entry max(repeat, 1) times, in post order (once for the old savestate marker) |
| `EventProperties.DrainDeliversQueue` | src/psxbios_event.cpp:92-132 | a drain delivers exactly what was queued when it began, whatever callbacks do, and leaves what they post for the next drain, in order |
| `EventProperties.OneEntryDrained` | src/psxbios_event.cpp:121-130 | a single entry is delivered as often as its repeat count says but at least once, and once for the savestate marker |
| `EventProperties.DrainFreesPortsIff` | src/psxbios_event.cpp:108-117 | a drain makes every port idle exactly when each busy port has an event in the queue or some queued event has no valid port |
| `EventProperties.BusyPortsBacked` | src/psxbios_event.cpp:97-131 | over every run whose requests leave an event of their port in the queue, from a state whose drain would make all ports idle, every drain does, before its first delivery |
| `EventRoom.ScriptFreesPorts` | src/psxbios_event.cpp:55-132 | the same of every script whose requests are for valid ports and whose posts all fit the queue, however its callbacks are nested |
| `EventProperties.CardInfoClearedIff` | src/psxbios.cpp:1554-1593 | the busy bit of an accepted request is cleared by the next drain exactly when an event queued before clears it, or the queue had room and the port is below 16, or is 31 |
| `EventProperties.CardInfoAccepted` | src/psxbios.cpp:1554-1593 | a request on a busy port changes nothing; any other makes the port busy and puts its two events at the end of the queue in order, as far as there is room |
| `EventProperties.DeliveryMarks` | src/psxbios_event.cpp:45-52 | a delivery whose callbacks do nothing marks exactly the enabled slots of that event and spec without callback |
| `EventProperties.MarksMatch` | src/psxbios_event.cpp:45-52 | whatever callbacks do, every mark made is of a slot that is then enabled, for the event and spec delivered and without callback, and every callback called is of such a slot with one |
| `EventProperties.UnDeliverUnmarks` | src/psxbios_event.cpp:306-316 | UnDeliver unmarks exactly the marked slots of that event, spec and mode |
| `EventLaws.ScriptAlike` | src/psxbios_event.cpp:37-316 | what a script does, and what it logs, depends on the table, the queue and the busy bits alone |
| `EventLaws.DeliveryLogged` | src/psxbios_event.cpp:37-53 | the log of a delivery: slot by slot as the table is when the loop comes to it, the enabled slots of the event are marked or called, each call followed by exactly the entries of its callback's run, on whose outcome the loop goes on |
| `EventLaws.DeliveryLogOnly` | src/psxbios_event.cpp:37-53 | and no other log meets that |
| `EventLaws.OneCallback` | src/psxbios_event.cpp:47-48 | with one enabled slot for the event, whose mode is callback, delivering is running its callback |
| `EventLaws.ScriptInOrder` | src/psxbios_event.cpp:47-48 | a callback makes its calls one after the other |
| `EventLaws.DrainLogged` | src/psxbios_event.cpp:92-132 | the log of a drain: the queue is taken, and each delivery due follows with the runs of its own callbacks |
| `EventLaws.StatusCalls` | src/psxbios_event.cpp:194-316 | Enable, Disable and Close set the status of the one slot the handle names, if it is open, and change nothing else |
| `EventLaws.TakingCalls` | src/psxbios_event.cpp:214-286 | Test and Wait enable the one slot the handle names again, if it is delivered and has no callback, and change nothing else |
| `EventLaws.UnDeliverCall` | src/psxbios_event.cpp:306-316 | UnDeliver enables every delivered slot of that event and spec without callback again, and changes nothing else |
| `EventLaws.OpenCall` | src/psxbios_event.cpp:150-178 | Open sets up the first free slot with event, spec, mode and function, disabled, and changes no other |
| `EventLaws.PostCall` | src/psxbios_event.cpp:55-90 | an accepted post ends the queue with that event and spec, the port in four bits and the repeat in twelve; a full queue stays |
| `EventLaws.CardCall` | src/psxbios.cpp:1554-1593 | the first event of a request has spec 0x4 for a card that is there, 0x100 for one that is not, and 0 for a port without cards; the second has spec 0x4 |
| `EventLaws.HandleNamesSlotIff` | src/psxbios_event.cpp:134-192 | the low half of an event handle is the number of its slot exactly when the slot is one of the first 0x10000 |
| `EventLaws.OpenedIsDelivered` | src/psxbios_event.cpp:150-286 | an event opened without callback and enabled through its handle is delivered, found by Test and then enabled again, exactly when the handle names its slot |
| `EventKernel.Kernel.GetFreeEventSlot` | src/psxbios_event.cpp:134-140 | the first free slot, or -1 |
| `EventKernel.Kernel.OpenEvent` | src/psxbios_event.cpp:150-178 | the handle of a slot that was free and now has the four arguments, disabled, no other slot being changed, or -1 with nothing changed |
| `EventKernel.Kernel.SetOpenEventStatus` | src/psxbios_event.cpp:194-203 | the status of an open slot, and of no other, is set |
| `EventKernel.Kernel.TestEvent` | src/psxbios_event.cpp:261-286 | 1 exactly when the slot the handle names is delivered, which is then taken |
| `EventKernel.Kernel.WaitEvent` | src/psxbios_event.cpp:214-259 | as TestEvent, and repeated exactly while the event is enabled |
| `EventKernel.Kernel.UnDeliverEvent` | src/psxbios_event.cpp:306-316 | the loop is the function the lemmas are about |
| `EventKernel.Kernel.PostAsyncEvent` | src/psxbios_event.cpp:55-90 | the entry goes to the end of the queue, or is dropped when the queue is full |
| `EventKernel.Kernel.CardInfo` | src/psxbios.cpp:1554-1593 | refused on a busy port, otherwise the port is busy and its events are queued as far as there is room |
| `EventKernel.Kernel.DeliverEvent` | src/psxbios_event.cpp:37-53 | the loop over the table, which callbacks may change while it runs, is the function the lemmas are about |
| `EventKernel.Kernel.DeliverAsyncEvent` | src/psxbios_event.cpp:92-132 | copying the queue, emptying it, clearing the busy bits and delivering the copy is the function the lemmas are about |
| `EventKernel.Signal` | src/psxbios_event.cpp:150-286 | a program that opens, enables, delivers and polls an event gets 1 from the poll |
| `IrqChains.EnqueueHolds` | src/psxbios.cpp:2695-2712 | enqueueing a fresh node puts it in front of its chain; the chains stay acyclic and apart and the others unchanged |
| `IrqChains.EnqueueHoldsIff` | src/psxbios.cpp:2695-2712 | the chains are sound afterwards, with the node in front of its own, exactly when the node was fresh |
| `IrqChains.EnqueueEndsIff` | src/psxbios.cpp:2695-2712 | whatever node is enqueued, every chain still ends exactly when no node of its own chain has its link word |
| `IrqChains.DequeueHolds` | src/psxbios.cpp:2718-2756 | dequeueing takes exactly that node out, or changes nothing; the chains stay acyclic and apart and the others unchanged |
| `IrqChains.NullDequeueHoldsIff` | src/psxbios.cpp:2718-2756 | dequeueing a null node changes nothing and leaves sound chains exactly when the chain is empty or the word at address zero is zero |
| `IrqChains.NullDequeueDamages` | src/psxbios.cpp:2718-2756 | a concrete memory in which it leaves a chain that no longer ends |
| `IrqChains.EnqueueDequeue` | src/psxbios.cpp:2695-2756 | dequeueing right after enqueueing restores the chains and every word but the node's link |
| `IrqDispatch.Handlers.SysEnqIntRP` | src/psxbios.cpp:2695-2712 | for any node the writes are the ones of the model, found through the table pointer in memory; the chains stay sound exactly when the node is fresh, and the head then leads to the node and the node to the old head |
| `IrqDispatch.Handlers.SysDeqIntRP` | src/psxbios.cpp:2718-2756 | the search ends and unlinks exactly the node; for a null node it writes what the lemmas on null nodes are about |
| `IrqDispatch.Handlers.SearchLink` | src/psxbios.cpp:2739-2746 | the search stops at the link to the node, or at the end of the chain |
| `IrqWalk.ActedSound` | src/psxbios.cpp:2695-2756 | whatever node a callback dequeues and whatever fresh node it enqueues, memory keeps sound chains and, from the link the walk holds, exactly the nodes the model says it still comes to |
| `IrqWalk.PoppedSound` | src/psxbios.cpp:3811-3813 | the walk is at the first of those nodes, and the link it reads before calling anything leads to the rest |
| `IrqWalk.WalkedSound` | src/psxbios.cpp:3810-3835 | the walk of a chain leaves sound chains and has nothing left to visit |
| `IrqWalk.DispatchedSound` | src/psxbios.cpp:3804-3836 | so does the walk over all chains |
| `IrqVisits.ActedWords` | src/psxbios.cpp:2695-2756 | no call of a callback writes a handler or verifier word of a node to come |
| `IrqVisits.WalkedOnce` | src/psxbios.cpp:3810-3835 | over the walk of a chain, a node still to come is visited, or made to be missed, or still to come in a later chain, exactly one of them and once |
| `IrqVisits.VisitedIffNotMissed` | src/psxbios.cpp:3804-3836 | a registered node is visited at most once, and exactly when no callback dequeues it before its chain is begun or while another node of the chain still comes before it |
| `IrqVisits.DispatchedPlainly` | src/psxbios.cpp:3804-3836 | if no callback makes the walk miss a node or adds one to it, the nodes visited are those of the four chains in order; of these the ones whose third word is not zero are asked in turn, and the handlers run are the second words of those whose verifier did not return 0, each with that result |
| `IrqVisits.HandlersAnswer` | src/psxbios.cpp:3822-3830 | whatever callbacks do, no handler runs after a verifier that returned 0 |
| `IrqVisits.RoundCalls` | src/psxbios.cpp:3819-3830 | in a round the calls of the verifier are made first, and the handler's after them unless the result is 0 |
| `IrqRestarts.FrontRound` | src/psxbios.cpp:3808-3830 | a handler that moves the second of two nodes to the front makes the walk go on at that node and then come to its own again |
| `IrqRestarts.TwoRoundsRepeat` | src/psxbios.cpp:3808-3830 | after two such rounds memory, the chains and the link the walk holds are what they were |
| `IrqRestarts.NeverEnds` | src/psxbios.cpp:3808-3830 | so that at no round, however late, is the walk at an end |
| `IrqRestarts.EndsIffRestartsStop` | src/psxbios.cpp:3808-3835 | for every infinite sequence of reactions, the walk ends exactly when from some round on no callback enqueues a loose node, one the walk will come to though it was dequeued |
| `IrqDispatch.Handlers.React` | src/psxbios.cpp:3819-3830 | the verifier's calls are made, then, only if its result is not 0, the handler's, which runs with that result |
| `IrqDispatch.Handlers.Visit` | src/psxbios.cpp:3808-3830 | one round on memory is the round of the model: the next node is the one linked before any callback ran |
| `IrqDispatch.Handlers.WalkChain` | src/psxbios.cpp:3807-3835 | on memory, the walk of a chain is the one the lemmas are about, whatever calls its callbacks make |
| `IrqDispatch.Handlers.Dispatch` | src/psxbios.cpp:3804-3836 | on memory, the walk over the chains visits the nodes, runs the handlers and leaves the chains that the lemmas are about |
| `Directory.SealedXorsToZero` | src/psxbios.cpp:2086-2087 | a frame with a fresh checksum XORs to zero |
| `Directory.XorIsParity` | src/psxbios.cpp:2086-2087 | a bit of the checksum is set exactly when an odd number of the bytes have it |
| `Directory.NamedIff` | src/psxbios.cpp:2045-2046 | a string is the name of a frame exactly when it is the text there up to the first zero |
| `Directory.NamedOnce` | src/psxbios.cpp:2045-2046 | a frame has only one name |
| `Directory.FindIsFirst` | src/psxbios.cpp:2043-2051 | the search stops at the first frame in use whose text is the name, or finds none |
| `Directory.CreatedXors` | src/psxbios.cpp:2062-2087 | every frame a creation writes XORs to zero |
| `Directory.CreatedLink` | src/psxbios.cpp:2074-2085 | the link bytes of a frame of the new file are its own number and 0, those of the last one 0xFF |
| `Directory.CreatedChain` | src/psxbios.cpp:2069-2085 | following the links from any frame of the new file visits the frames up to the last |
| `Directory.CreatedStates` | src/psxbios.cpp:2062-2075 | the first frame has the state and name of the new file and the low byte of its size in units of 256 bytes, its other bytes staying; the others have the middle or last state and zeros; every other frame stays |
| `Directory.DeclaresSizeIff` | src/psxbios.cpp:2064-2065 | the size the first frame declares is that of the blocks asked for, modulo 64 KB: the very size exactly when they are fewer than eight |
| `Directory.EightBlocksDeclareNothing` | src/psxbios.cpp:2064-2065 | a file of eight blocks has a chain of eight frames and declares size zero |
| `Directory.CreatedIsFound` | src/psxbios.cpp:2043-2051 | opening the name later finds the new file |
| `Directory.CreatedCompleteIffFits` | src/psxbios.cpp:2069-2087 | the chain has the blocks asked for, and ends with a last frame, exactly when it fits the directory |
| `Directory.CreateSparesFilesIff` | src/psxbios.cpp:2069-2085 | first frames of other files survive exactly when none lies among the frames written |
| `Directory.CreateKeepsChain` | src/psxbios.cpp:2069-2085 | a chain that meets no frame written keeps its links and all its bytes |
| `Directory.RenamedFrame` | src/psxbios.cpp:2394-2401 | renaming re-establishes the zero XOR, clears the rest of the name, and keeps state, size, link and every other frame |
| `Directory.RenamedIsFoundIff` | src/psxbios.cpp:2388-2401 | the new name finds the renamed file exactly when no earlier file has it |
| `CardFile.Card.Seal` | src/psxbios.cpp:2086-2087 | the checksum loop seals the frame and writes nothing else |
| `CardFile.Card.HasName` | src/psxbios.cpp:2046 | the comparison holds exactly when the frame's text up to the first zero is that name |
| `CardFile.Card.Search` | src/psxbios.cpp:2043-2051 | the first frame in use whose text up to the first zero is that name, or none |
| `CardFile.Card.Create` | src/psxbios.cpp:2062-2087 | the loops, with their shared counter, write exactly the directory the lemmas are about, and no byte beyond it |
| `CardFile.Card.BuOpen` | src/psxbios.cpp:2029-2100 | opening finds a file, creates it in the first free frame, or reports failure, with the result and the descriptor the code gives; after every success the name finds the descriptor's frame |
| `CardFile.Card.BuRename` | src/psxbios.cpp:2383-2408 | the first file of that name is renamed, or nothing changes |

## Left out

- realloc and calloc: what they do on a null pointer or on failure is not what their documentation promises, and they add nothing to malloc and free.
- Heaps that start at an unaligned address or wrap around the 2 MB mirror; a null heap address; headers that the game overwrites.
- Addresses outside the mirrored region of main memory: the code sends those from 0x1f800000 on to the scratchpad and others past the end of its buffers; the model takes every address modulo 2 MB.
- `UserHeap.Heap.Free`: only null and pointers of chunks in use; freeing anything else sets a bit of whatever word is there.
- The phases of malloc are separate methods (`SetUp`, `JoinFree`, `ScanChunk`, `Search`, `Take`), as parts of a round of the sort (`LeftStep`, `RightSide`, `SmallerSide`), a round and a chain of the interrupt walk (`Visit`, `WalkChain`, `OneChain`), the steps of the kernel's initialisation (`AllocTables`, `NameTable`) and parts of the card's file creation are; the code has them inline.
- The comparator, verifiers and handlers are abstract: the interpreter that runs them, and registers they change, are not part of this model. A comparator gets the number of the call, so it need not answer alike each time, but it does not write memory.
- The critical section around qsort, and arrays whose byte length or bounds wrap in 32 bits.
- Aligned access to control blocks and tables is assumed, and programs that write the kernel's own pointers, tables or table sizes are not covered (the running thread may write any other memory).
- `ThreadKernel.Kernel.ChangeTh`: thread numbers outside the table, which only a debug check guards; the same for `CloseTh` and for handler chains 4 and up.
- The interrupt path that leaves through the end of the exception handler, or through jmp_int, without restoring registers; the cause register is saved but, as in the code, never restored.
- `IrqDispatch.Handlers.Dispatch`: callbacks that enqueue a node which is in a chain already, or overlaps one, and callbacks that dequeue the null node; what one such call does is proved in `EnqueueEndsIff` and `NullDequeueHoldsIff`.
- `IrqVisits.VisitedIffNotMissed`: for walks in which no callback enqueues the node itself again, or any loose node, since a node can then be visited more than once.
- `KernelInit.InitKernelDataStructure`: table sizes that wrap (`TablesApartIffNoWrap` and `WrappedThreadTable` say what becomes of those), or no threads or processes at all.
- `EventModel.RunScript`: a callback that never returns.
- `EventKernel.Kernel.WaitEvent`: the clock it advances and the loop it makes the program run; one call is one poll.
- `EventKernel.Kernel.CardInfo`: channels from 0x200 on, whose port shifts a one out of the 32 busy bits; card_active_chan.
- initEvents while a card request is pending, which empties the queue without clearing busy bits; event table sizes that games change.
- `CardFile.Card.BuOpen`: names longer than the 31 characters a descriptor holds, which the code copies without a check; an absent card; marking the card dirty.
- `CardFile.Card.BuRename`: names that do not fit before the checksum, which the code copies without a check.
- Deleting card files and listing them with patterns, reading and writing their data.
- GPU, DMA, timers, pads, CD-ROM, standard output, string and memory calls of the C library, savestates, per-game patches.
