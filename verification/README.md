# Verified models of the kernel

This project models the hard parts of a small teaching kernel for x86-64 and proves what they promise: the
two memory managers, the scheduler with its semaphores and sleep queue, the dining philosophers and the pipe
built on top of them, the packer and loader of the kernel image, and the placement of files on a BMFS disk.

Each part has two layers. Code that works in place is a class or a method with the fields, loops and branches
of the original (`Buddy`, `Group`, `ReadyQueue`, `Semaphore`, `SleepList`, `PhyloTable`, `Ring`, `Packer`,
`Disk`), proved against functions on values. The properties are then proved about those functions, mostly as
statements over every reachable state or every run. A header or list node is an address, and each of its fields is a
map from addresses, so a write through a link is an update of one map.

| file | what it holds |
|---|---|
| `Bits.dfy` | exclusive or on block addresses, alignment, siblings |
| `AbstractHeap.dfy` | what both memory managers promise: a map of regions that never overlap |
| `BuddyTree.dfy`, `BuddySystem.dfy` | the buddy manager: the tree of blocks, and headers and free lists in place |
| `Circle.dfy`, `RingBuffer.dfy`, `Bytes.dfy` | circular linked lists as maps from a node to its neighbour, circular buffers, bytes |
| `GroupBlocks.dfy`, `GroupManager.dfy` | the first-fit manager: the blocks, and its two intrusive rings in place |
| `SchedulerSpec.dfy`, `Scheduler.dfy`, `RoundRobin.dfy` | the scheduler on values, in place, and weighted round robin |
| `Semaphores.dfy`, `SleepQueue.dfy` | semaphores and their waiter ring, the sorted sleep list |
| `Kernel.dfy`, `Effects.dfy` | scheduler, semaphores and sleep queue as one machine of events, and what each event does to whom |
| `Fairness.dfy` | how long a ready process can be kept waiting |
| `Traces.dfy`, `LostUnits.dfy` | runs that give pids to new processes while queues hold them: whom a tick wakes then, and who loses a post |
| `DiningTable.dfy`, `Philosophers.dfy`, `TableRuns.dfy` | the table, every interleaving of philosophers, ticks, joining and leaving, and two runs from the empty table |
| `Pipe.dfy` | one pipe with any number of writers and readers, and its ring in place |
| `ModuleImage.dfy` | the image format, the packer, `memcpy` and the loader |
| `Bmfs.dfy` | where `create` puts a file |

`dafny verify dfyconfig.toml` checks everything.

## What is taken for granted

System calls enter the kernel through interrupt gates, so a call is interrupted only where it reschedules: every
event of `Kernel.dfy` is one such stretch. User code, and so the philosophers, is interrupted anywhere.

- **Buddy manager.** The arena is `64 << k` bytes with `k <= 12` and aligned to its size, or larger and aligned
  to `64 << 12`, as in the kernel itself (2 MiB at 0x600000). In the larger arena only the first 256 KiB are ever
  tiled once the first block has been split, and the rest counts as used from then on: `GetInfo` and `AllFreed` say
  how much in every case. A request above the top order is given a block of the top order: `Malloc` states for
  exactly which sizes the region is then too small.
- **Group manager.** The arena size is a multiple of 8, and a request is at most 2^64 - 8 bytes: beyond that `ALIGN_UP`
  wraps to 0 (`AlignWraps`).
- **Both.** Callers release only what they were given, write only to their regions, and the counters do not overflow.
- **Semaphores.** Openings are not negative. What a process holds is counted from the last opening on: closing a semaphore
  that is held, and opening it again, forgets the holder.
- **Scheduler machine.** A run starts after the first dispatch, with the first process (pid 1) running and the idle
  process (pid 2) created. Idle only loops, and a new process gets a pid from 1 to 20 that is not live. Any priority may
  be stored, except that counting it down does not overflow an int. List nodes can be allocated. Beyond that an event of
  a run has to be harmless: pid 1 waits for nothing but its children, since `unblock_process` refuses to wake it; nobody
  blocks the running process or idle; an unblock from outside, or the end of a child, meets no process that waits on a
  semaphore or a tick; a semaphore with waiters is closed only when their positions are live pids; and the pid of a new
  process is in no queue and not in the sleep list. That is exactly what keeps the machine in order (`StepKeepsIff`).
  The runs of `Traces.dfy` keep only two of these: pid 1 does not sleep, and nobody blocks the running process or idle.
- **Philosophers.** Creating the process of a new philosopher succeeds. Its pid may be one that a removed philosopher
  had, and that queues still hold, but is none that the sleep list still holds. It is enough that a tick has passed since
  the removal (`TickClears`, `NoneDeadStays`, `ClearedIsPrudent`), and it is exactly what keeps the system in order
  (`OnlyPrudentFits`). A tick can come anywhere; how it shares out the processor is left open.
- **Pipe.** One pipe is live, and its two semaphores are fresh and stay open. A new process does not get a pid that a
  dead one left in their queues, and nothing but the pipe wakes a process that waits for it: no unblock from outside, and
  no entry that an earlier holder of its pid left in the sleep list. That is exactly what keeps the pipe in order
  (`Pipe.StepKeepsIff`).
- **BMFS.** `qsort` returns some order that its comparison allows; live extents are not empty and lie on the disk,
  whose blocks are fewer than 2^31, since the comparison returns the difference of two of them as an int.

Nine promises are false of the code as it stands. Each is replaced by the exact condition under which it holds, with an
input or a run on which it fails:

- The group manager's window stays in the arena exactly until a join goes around the ring (`FreeGood`, `WindowCanSlide`).
- A ready process has its turn within the ticks due to those before it (`BoundedWait`), unless the running process leaves
  the list while that process is next: then it is passed over unless it is alone on the list after the departure and the
  wake-up of a parent, or that parent, at the tail of the list, is passed over in its place (`PassedOver`). That can go
  on for ever (`StarvingRun`).
- Ticks are shared out by priority exactly as long as the running process has no more of them left than its priority
  gives (`WeightedRoundRobin`); storing an unknown, smaller priority in mid-quantum breaks this (`StoringPriority`).
- Closing a semaphore never wakes the process that waited longest (`CloseStrandsTheFirst`).
- A post is counted or reaches somebody who waits on the semaphore, unless the first live pid in the queue is that of a
  process that does not, or pid 1's (`UnitLostIff`), as when the pid of a dead waiter is reused (`LosingRun`).
- A tick wakes those who are asleep and due. It wakes somebody else, or too early, exactly when an earlier holder of
  that pid left a due entry in the sleep list, or an earlier sleep of the process itself that was cut short did
  (`TickWakesIff`). So a reader of an empty pipe can read a byte that nobody wrote (`ReadsWhatNobodyWrote`).
- Two neighbours never eat together, as long as no new philosopher has a pid that the sleep list still holds
  (`NoTwoNeighboursEat`); the invariant behind this survives the creation of a philosopher exactly then
  (`OnlyPrudentFits`). Otherwise they can: a philosopher is removed in its sleep and its pid is given to a new one before
  the next tick (`NeighboursEat`).
- A philosopher can be left waiting for nobody by joining or leaving (`JoinOrphans`, `RemoveLastOrphans`, `LeftBehind`),
  though not all of them at once (`SomebodyCanMove`).
- `create` puts a file on the least free place, or refuses for lack of one, exactly in these directories: with an end
  mark, when there is room or no deleted record ends far enough from the end of the disk; without one, as after 64
  creates and a delete, when block 1 is free for the request or the request is larger than the disk (`SearchRight`,
  `CreateOnDisk`, `DeletedRecordRewinds`, `UnmarkedDirectoryForgets`). Other files keep their records unless an empty name, or a
  directory without end mark whose first record is deleted, puts an end mark in front of one (`CreateKeepsFiles`).

## Model

| member | source | states |
|---|---|---|
| Bits.XorFlipsBit | Kernel/memory/buddy_system.c:98-100 | Exclusive or of a multiple of a power of two with that power moves to the other half of the enclosing pair. |
| Bits.SiblingOutside | Kernel/memory/buddy_system.c:100-105 | The sibling address of the whole arena lies just outside it, on one side or the other. |
| BuddyTree.Tiling | Kernel/memory/buddy_system.c:48-140 | Every address of the arena lies in exactly one block. |
| BuddyTree.BlocksDisjoint | Kernel/memory/buddy_system.c:48-140 | Of two blocks, the lower one ends before the higher one starts. |
| BuddyTree.BlocksAligned | Kernel/memory/buddy_system.c:61-71 | A block of order k starts at a multiple of `64 << k`. |
| BuddyTree.PartnerIsXor | Kernel/memory/buddy_system.c:98-100 | The other half of the pair that a block belongs to is at the exclusive or of its address and its size. |
| BuddyTree.SiblingIsBlock | Kernel/memory/buddy_system.c:98-111 | The sibling address of a block smaller than the arena is the start of a real block, no larger, right beside it. |
| BuddyTree.CanonicalForm | Kernel/memory/buddy_system.c:97-137 | A free block of an order stands at an address if and only if that aligned part of the arena holds nothing in use and no larger aligned part around it does either. |
| BuddyTree.LiveDeterminesTree | Kernel/memory/buddy_system.c:97-137 | Two coalesced arenas with the same blocks in use are the same arena. |
| BuddyTree.BytesConserved | Kernel/memory/buddy_system.c:48-140 | Bytes in free blocks and bytes in used blocks add up to the arena. |
| BuddySystem.OrderIsLeast | Kernel/memory/buddy_system.c:20-28 | `get_order` gives the least order that holds the size, or the top order when none does. |
| BuddySystem.OrderBounds | Kernel/memory/buddy_system.c:48-53 | The block holds the request and its header exactly when a top-order block would, and above order 0 it is under twice what is needed. |
| BuddySystem.SiblingMeaning | Kernel/memory/buddy_system.c:97-111 | Below the arena's order the sibling address lies inside the arena and starts another block, no larger; at the arena's order it lies outside. |
| BuddySystem.BuddyCheck | Kernel/memory/buddy_system.c:102-124 | The sibling's header says free and of equal size exactly when the sibling is on the list of this order, so the search through that list never fails. |
| BuddySystem.FreeListsAreMaximalParts | Kernel/memory/buddy_system.c:48-140 | In every valid state list k holds exactly the maximal aligned parts of order k with nothing in use. |
| BuddySystem.FreeSetFromHeap | Kernel/memory/buddy_system.c:82-140 | Two valid managers with the same live regions have the same blocks and the same members on every free list, whatever the order of frees. |
| BuddySystem.AllFreed | Kernel/memory/buddy_system.c:82-140 | With nothing live the arena is one free block again, alone on its list, and the counters are zero; its header's size field is the initial one if no block was ever split, and otherwise that of a block of the arena's order. |
| BuddySystem.RefusedIffNoRoom | Kernel/memory/buddy_system.c:54-58 | All lists from the needed order up are empty if and only if no aligned part of that order is clear. |
| BuddySystem.FiguresAddUp | Kernel/memory/buddy_system.c:152-161 | Total minus the free payload on the lists is the bytes of used blocks, one header for each free block, and what lies behind the top order, unless one free block covers that too. |
| BuddySystem.Buddy.constructor | Kernel/memory/buddy_system.c:30-46 | Initialisation gives a valid manager with one free block and no live region. |
| BuddySystem.Buddy.GetOrder | Kernel/memory/buddy_system.c:20-28 | The doubling loop computes the order that `OrderIsLeast` characterises. |
| BuddySystem.Buddy.FindList | Kernel/memory/buddy_system.c:53-58 | The loop stops at the lowest non-empty list at or above the order. |
| BuddySystem.Buddy.SplitHand | Kernel/memory/buddy_system.c:61-71 | One round halves the block in hand, pushes its upper half on the list below, and changes no other used block. After the first one no header covers what lies behind the top order. |
| BuddySystem.Buddy.Carve | Kernel/memory/buddy_system.c:59-71 | Takes the head of a list and splits it down to the order, leaving the lists that `TakeDown` describes. |
| BuddySystem.Buddy.Grant | Kernel/memory/buddy_system.c:73-75 | Marking the block in hand as used makes every header agree with the tree again. |
| BuddySystem.Buddy.Malloc | Kernel/memory/buddy_system.c:48-79 | Adds one region, disjoint from all others, for exactly the size asked; returns null if and only if the size is zero or no list from its order up has a block; the block comes from the head of the lowest such list, and is split if and only if its own list was empty; the region holds the request if and only if size and header of 32 bytes fit 256 KiB, and it has 32 bytes or the block is under twice what is needed. |
| BuddySystem.Buddy.FindLink | Kernel/memory/buddy_system.c:113-121 | The walk over the links finds the block exactly when it is on the list, and stops at the link that names it. |
| BuddySystem.Buddy.Merge | Kernel/memory/buddy_system.c:113-133 | A free sibling of equal size is always found, is unlinked, and the joined block of the next order is in hand. |
| BuddySystem.Buddy.PushHand | Kernel/memory/buddy_system.c:136-137 | The block in hand becomes the head of its list and the state is consistent again. |
| BuddySystem.Buddy.GiveBackBlock | Kernel/memory/buddy_system.c:97-137 | The merging loop leaves the lists that `GiveBack` describes and touches no other block in use. |
| BuddySystem.Buddy.ReturnBlock | Kernel/memory/buddy_system.c:84-137 | Taking a block in use back leaves the lists that `GiveBack` describes and every other block in use as it was. |
| BuddySystem.Buddy.Free | Kernel/memory/buddy_system.c:82-140 | Removes exactly the region given, returns the size it was asked with, leaves all other regions alone and keeps the state canonical; the block around it lies on top of its list, the lists in between have lost one block each and the others are as they were; null does nothing. |
| BuddySystem.GivenBackOnTop | Kernel/memory/buddy_system.c:97-137 | The joined block lies on top of its list and covers the block given back; nothing was joined if and only if the sibling was on no list. |
| BuddySystem.ReleasedIsServedNext | Kernel/memory/buddy_system.c:136-137 | A block whose sibling is not free is on top of its list, so that the next request of its order is served from it. |
| BuddySystem.TakenDown | Kernel/memory/buddy_system.c:61-71 | Splitting down puts the upper half of each split on top of its list and changes no other list. |
| BuddySystem.Buddy.WritePayload | Kernel/memory/buddy_system.c:78-78 | Whatever a program writes inside its region leaves the manager valid, with the same heap and lists. |
| BuddySystem.Buddy.GetInfo | Kernel/memory/buddy_system.c:143-162 | The figures are sums over the actual free lists; used memory is used blocks plus the headers of free ones, plus all bytes behind the top order exactly once a block has been split or the whole arena is in use; the counters are those of the live regions, and the leak flag compares the bytes live with all bytes ever freed. |
| AbstractHeap.StepKeepsSeparate | Kernel/memory/buddy_system.c:48-140 | Adding a region clear of the others, and taking one away, leave live regions that do not overlap. |
| AbstractHeap.RunConserves | Kernel/memory/buddy_system.c:48-140 | Over any run of steps that `Malloc` and `Free` of either manager promise, the bytes granted are the bytes released plus the bytes live, and live regions never overlap. |
| AbstractHeap.CountedAfterMalloc | Kernel/memory/buddy_system.c:76-77 | The two counters still count live regions and their bytes after an allocation. |
| AbstractHeap.CountedAfterFree | Kernel/memory/buddy_system.c:85-93 | And after a release, where neither can go below zero. |
| GroupBlocks.AbsorbTiles | Kernel/memory/group_memory_manager.c:120-134 | Joining a block with its successor on the ring keeps the blocks tiling a window of the same length, which moves only when the last block takes over the first. |
| GroupBlocks.MallocGood | Kernel/memory/group_memory_manager.c:79-103 | Serving a request from a free block keeps the tiling of the same window and leaves no two free neighbours. |
| GroupBlocks.FreeGood | Kernel/memory/group_memory_manager.c:118-135 | Releasing keeps a window of the same length with no two free neighbours; the window moves up if and only if the join goes around the ring. |
| GroupBlocks.MallocHeap | Kernel/memory/group_memory_manager.c:79-103 | Serving a request adds one region that is large enough and changes no other. |
| GroupBlocks.ServedFigures | Kernel/memory/group_memory_manager.c:83-97 | In numbers: a request is rounded up to a multiple of 8, a block is split exactly when more than 72 bytes are left over, of which 56 are the header of the rest, a region is at most 79 bytes larger than asked for, and blocks start at multiples of 8 from the first one on. |
| GroupBlocks.FreeHeap | Kernel/memory/group_memory_manager.c:109-138 | Releasing removes exactly one region, whatever is joined on the way. |
| GroupBlocks.HeapOfSeparate | Kernel/memory/group_memory_manager.c:79-139 | Live regions never overlap. |
| GroupBlocks.RunGood | Kernel/memory/group_memory_manager.c:79-139 | Along every run the blocks tile a window of exactly the total size, fully coalesced, which only ever moves up. |
| GroupBlocks.RunAnchored | Kernel/memory/group_memory_manager.c:79-139 | While the first block is never released the window is the arena and every block lies in it. |
| GroupBlocks.RunRefinesHeap | Kernel/memory/group_memory_manager.c:79-139 | Every run of the manager is a run of the abstract heap: live regions never overlap, and bytes granted are bytes released plus bytes live. |
| GroupBlocks.AlignWraps | Kernel/memory/group_memory_manager.c:10-10 | Rounding up on a machine word is exact if and only if the request is at most 2^64 - 8; above that it gives 0. |
| GroupBlocks.WindowCanSlide | Kernel/memory/group_memory_manager.c:120-134 | From a fresh arena of 144 bytes, serving 8 and 24 bytes and releasing both in address order ends with a block that reaches past the arena. |
| GroupBlocks.BytesFill | Kernel/memory/group_memory_manager.c:148-160 | Bytes of free and of used blocks, headers included, add up to the total. |
| GroupBlocks.FewFreeBlocks | Kernel/memory/group_memory_manager.c:120-136 | There are at most as many free blocks as used ones, or one block in all; with nothing in use one free block fills the arena. |
| GroupBlocks.LiveCountIsHeapSize | Kernel/memory/group_memory_manager.c:101-101 | Used blocks and live regions are equally many. |
| GroupManager.RingSums | Kernel/memory/group_memory_manager.c:148-162 | The walk around the free ring adds up exactly the free blocks and counts them. |
| GroupManager.FreeBlockNotInHeap | Kernel/memory/group_memory_manager.c:115-116 | A pointer refused because its block is free, or has no size, is no live region. |
| GroupManager.Group.constructor | Kernel/memory/group_memory_manager.c:61-77 | Initialisation gives one free block that fills the arena, alone on both rings. |
| GroupManager.Group.InsertFree | Kernel/memory/group_memory_manager.c:31-46 | The block becomes the first of the free ring, both link directions stay inverse to each other, and its flags are set. |
| GroupManager.Group.RemoveFree | Kernel/memory/group_memory_manager.c:48-59 | The block leaves the free ring, which stays one doubly linked cycle of the others in the same order. |
| GroupManager.Group.SplitBlock | Kernel/memory/group_memory_manager.c:85-97 | Both rings stay well linked around the new block, which heads the free ring. |
| GroupManager.Group.FirstFit | Kernel/memory/group_memory_manager.c:82-106 | Returns the first block of the free ring that is large enough, or null exactly when none is. |
| GroupManager.Group.Malloc | Kernel/memory/group_memory_manager.c:79-107 | Null exactly for size zero, with 1024 live regions, or when no free block holds the rounded size; otherwise the first fit on the ring is served, and one region is added that is at most 79 bytes larger than asked for, 8-aligned from the first block on. |
| GroupManager.Group.JoinNextBlock | Kernel/memory/group_memory_manager.c:120-126 | The next block is taken over if it is free, on both rings. |
| GroupManager.Group.JoinPrevBlock | Kernel/memory/group_memory_manager.c:127-134 | The previous block takes this one over if it is free, on both rings. |
| GroupManager.Group.Free | Kernel/memory/group_memory_manager.c:109-139 | Inside the arena it removes exactly the live region given, or nothing when the address is not a live one; a pointer outside is refused; the free ring loses the free neighbours, and the block that the region has become part of heads it. |
| GroupManager.ReleaseRing | Kernel/memory/group_memory_manager.c:119-135 | The two joins and the insertion leave the ring with that block in front of all the others, without the neighbours and in the order they had. |
| GroupManager.ReleasedIsServedFirst | Kernel/memory/group_memory_manager.c:81-102 | After a release the next request that fits in the released block is served from the free block it has become part of. |
| GroupManager.Group.GetInfo | Kernel/memory/group_memory_manager.c:141-162 | All figures are sums over the actual blocks, the leak flag holds if and only if something is live, and allocated minus freed is the live bytes. |
| Circle.ForwardInsert | Kernel/memory/group_memory_manager.c:89-94 | Relinking around a new node keeps one forward cycle with the node in its place. |
| Circle.ForwardRemove | Kernel/process/scheduler.c:86-95 | Linking past a node keeps one forward cycle of the others. |
| SchedulerSpec.BlockInv | Kernel/process/scheduler.c:123-134 | Blocking keeps the ready list one duplicate-free cycle of exactly the processes that can run, with the running one at the current node. |
| SchedulerSpec.UnblockInv | Kernel/process/scheduler.c:136-151 | So does unblocking. |
| SchedulerSpec.CreateInv | Kernel/process/scheduler.c:50-67 | So does adding a new process, of any priority. |
| SchedulerSpec.TerminateInv | Kernel/process/scheduler.c:179-193 | So does taking a process away for good. |
| SchedulerSpec.SetPriorityInv | Kernel/process/scheduler.c:196-223 | So does a change to any priority. |
| SchedulerSpec.SetPriorityTakesEffect | Kernel/process/scheduler.c:196-223 | The priority is stored, success means it is one of 8, 4, 2 and 1, and exactly then the process's node gets it as counter; nothing else changes. |
| SchedulerSpec.BlockChanges | Kernel/process/scheduler.c:123-134 | Blocking succeeds exactly for a live unblocked process; it changes that status and no other field of any process, and takes exactly its node off the list. |
| SchedulerSpec.UnblockChanges | Kernel/process/scheduler.c:136-151 | Waking succeeds exactly for a blocked process other than pid 1; it changes that status and no other field, and puts a node with the process's own priority behind the last one. |
| SchedulerSpec.CreateChanges | Kernel/process/process.c:46-47 | A new process is ready, last on the list, with the priority and the stack pointer given; the others are as they were. |
| SchedulerSpec.TerminateChanges | Kernel/process/scheduler.c:179-193 | A process that is taken away leaves table and list; the others are as they were. |
| SchedulerSpec.SearchFindsNext | Kernel/process/scheduler.c:31-40 | When nothing is running the search stops at the first node it looks at. |
| SchedulerSpec.DispatchInv | Kernel/process/scheduler.c:17-47 | The scheduler keeps the invariant and leaves a process running: the same one while its quantum lasts, and otherwise the next on the list, so the fall-back after the search is never reached. |
| SchedulerSpec.DispatchKeepsSp | Kernel/process/scheduler.c:20-38 | The process chosen is resumed with the stack pointer it was preempted with, and the one left behind is stored with its present one. |
| Scheduler.ReadyQueue.IsInReadyList | Kernel/process/scheduler.c:110-121 | Tells whether a process has a node on the list. |
| Scheduler.ReadyQueue.AddToReadyList | Kernel/process/scheduler.c:50-67 | Links a node for the process at the end, once only, with its priority as counter. |
| Scheduler.ReadyQueue.RemoveFromReadyList | Kernel/process/scheduler.c:69-108 | Unlinks the process's node; head and current node move on when they were that node. |
| Scheduler.ReadyQueue.Unlink | Kernel/process/scheduler.c:77-101 | The links after it are one cycle of the remaining nodes, from the right head and with the right current node. |
| Scheduler.ReadyQueue.BlockProcess | Kernel/process/scheduler.c:123-134 | Refines the blocking on values, also in when it fails. |
| Scheduler.ReadyQueue.UnblockProcess | Kernel/process/scheduler.c:136-151 | Refines the unblocking on values, also in when it fails. |
| Scheduler.ReadyQueue.CreateProcess | Kernel/process/process.c:46-47 | Refines the creation on values. |
| Scheduler.ReadyQueue.TerminateProcess | Kernel/process/scheduler.c:186-190 | Refines the removal on values. |
| Scheduler.ReadyQueue.ModifyPriority | Kernel/process/scheduler.c:196-223 | An unknown priority is stored but reported as failure; a known one also sets the counter of the process's node. |
| Scheduler.ReadyQueue.FindReady | Kernel/process/scheduler.c:31-40 | The loop around the circle finds the first ready node after the current one, or none. |
| Scheduler.ReadyQueue.Schedule | Kernel/process/scheduler.c:17-47 | Refines the scheduler on values: new state and stack pointer returned. |
| RoundRobin.TickMoves | Kernel/process/scheduler.c:24-39 | A tick moves one slot further in a round that gives every process as many slots as its priority, and one slot for a priority below 1. |
| RoundRobin.WeightedRoundRobin | Kernel/process/scheduler.c:24-39 | In a window of as many ticks as these slots add up to, from any state, every ready process runs for exactly its slots if and only if the running one has no more ticks left than its priority gives, or is alone. |
| RoundRobin.QuantumEnds | Kernel/process/scheduler.c:24-39 | Whatever the counter, once the running quantum is used up that condition holds, in the same round. |
| RoundRobin.StoringPriority | Kernel/process/scheduler.c:202-206 | Storing a priority ends that condition if and only if it is an unknown one, for the running process, and smaller than what is left of its quantum. |
| Fairness.PassedOver | Kernel/process/scheduler.c:69-193 | When the running process blocks, the next one on the list gets the processor if and only if just these two were on it; when it is killed, if and only if moreover no parent is woken; when it exits, so too, except that at the tail of the list a parent that is woken is passed over instead. |
| Fairness.TickedWait | Kernel/process/scheduler.c:24-39 | A reschedule of a running process brings every other ready process nearer by a tick. |
| Fairness.PassingWait | Kernel/process/scheduler.c:31-40 | After the running process has left, every ready process but the one that comes up waits for less than the ticks due to all in front of it. |
| Fairness.StepCloser | Kernel/process/scheduler.c:17-193 | Every event of the machine brings a process that goes on waiting, and is not passed over, as many ticks nearer as it takes, not counting newcomers to the list and raised priorities. |
| Fairness.BoundedWait | Kernel/process/scheduler.c:17-108 | Over every run in which no running process leaves while it is next, a ready process waits for fewer ticks than are due to those before it and to those who join on the way. |
| Fairness.StarvingRun | Kernel/process/scheduler.c:99-101 | From boot, for any number of ticks, a run in which the first process is ready all that time and never runs, because another one sleeps from each tick to the next. |
| Traces.TickWakesIff | Kernel/process/sleep.c:42-62 | In every state that a run from boot reaches, with pids given to new processes at will, a tick makes a blocked process ready if and only if it is asleep and due, or an entry is due that a dead holder of its pid, or a sleep of its own cut short, left in the list. |
| Traces.FollowKeeps | Kernel/process/process.c:146-155 | After every event of such a run the sleep list holds the entries of those who are asleep, those left by sleeps that ended early, and no others, each as often as it should. |
| LostUnits.UnitLostIff | Kernel/syncro/sem.c:74-84 | Whatever has become of the pids in its queue, a post on an open semaphore neither adds to the value nor makes anybody ready who waits on that semaphore if and only if the first live pid in the queue is that of a process that does not wait on it, or pid 1's. |
| LostUnits.LosingRun | Kernel/process/process.c:146-155 | A run from boot in which a waiter is killed, its pid is given to a new process, and the next post is lost. |
| Semaphores.PostServesFirstLive | Kernel/syncro/sem.c:63-88 | A post goes to the first live waiter, dropping the dead ones before it, and adds to the value exactly when there is no live one. |
| Semaphores.Conservation | Kernel/syncro/sem.c:21-116 | Over every run of openings, waits, posts and closings: opening an open semaphore changes nothing, a closed one gets exactly the units of that opening; since then units opened with plus posts equal the value plus grants, nobody waits while the value is positive, and waiters leave in the order they came. |
| Semaphores.ValueIsNet | Kernel/syncro/sem.c:21-116 | While nobody waiting dies, the events alone determine a semaphore: its value is the units opened with and posted less the waits, or the queue has as many processes as are missing. |
| Semaphores.HandOffsFollowArrivals | Kernel/syncro/sem.c:74-84 | The waiters that are handed a unit since the semaphore was opened are served in their order of arrival. |
| Semaphores.HoldersBounded | Kernel/syncro/sem.c:21-34 | Units held and units left are always the value of the opening that took effect, if only holders post. |
| Semaphores.MutualExclusion | Kernel/syncro/sem.c:21-116 | However many processes open it, a semaphore opened at 1 at first is never held by two processes, or twice by one. |
| Semaphores.RingNeverFull | Kernel/syncro/sem.c:100-107 | With distinct pids from 1 to 20 a caller that is not queued always finds room, so only a closed semaphore refuses. |
| Semaphores.CloseWakes | Kernel/syncro/sem.c:47-59 | Closing wakes the waiter in a position if and only if a process whose pid is that position exists. |
| Semaphores.CloseStrandsTheFirst | Kernel/syncro/sem.c:55-59 | Closing wakes everybody if and only if nobody waits. |
| Semaphores.Semaphore.constructor | Kernel/syncro/sem.c:10-19 | A fresh semaphore is closed and has no waiters. |
| Semaphores.Semaphore.SemOpen | Kernel/syncro/sem.c:21-34 | Sets the value and empties the ring when it was closed, and changes nothing when it was open. |
| Semaphores.Semaphore.SemWait | Kernel/syncro/sem.c:90-116 | Refused, queued at the end of the ring, or granted, as on values. |
| Semaphores.Semaphore.TakeLive | Kernel/syncro/sem.c:74-84 | The loop takes off the ring the dead waiters in front and the first live one. |
| Semaphores.Semaphore.SemPost | Kernel/syncro/sem.c:63-88 | Hand-off or increment, as on values. |
| Semaphores.Semaphore.SemClose | Kernel/syncro/sem.c:36-61 | Empties the ring, closes, and names the waiters it wakes. |
| SleepQueue.AddKeepsSorted | Kernel/process/sleep.c:20-35 | The list stays sorted by deadline and the newcomer goes behind everyone due no later. |
| SleepQueue.SweepMembers | Kernel/process/sleep.c:42-62 | The sweep leaves exactly the entries that are alive and not yet due, and wakes every live one that is. |
| SleepQueue.SweepKeepsSorted | Kernel/process/sleep.c:37-63 | What is left is still sorted. |
| SleepQueue.SweepKeepsCounts | Kernel/process/sleep.c:42-62 | Every entry that stays is there as often as before. |
| SleepQueue.SweepAppend | Kernel/process/sleep.c:42-62 | Sweeping two stretches is sweeping each, so the order of what stays and of what is woken is that of the list. |
| SleepQueue.SweepWakesAPrefix | Kernel/process/sleep.c:50-56 | While everyone is alive those woken are a prefix of the list, in order of deadline. |
| SleepQueue.WokenOnceOnTime | Kernel/process/sleep.c:20-63 | A process that sleeps and stays alive is woken exactly once, at the first tick after its call that has reached its deadline, over every run. |
| SleepQueue.SleepList.FindPlace | Kernel/process/sleep.c:27-31 | The walk over the links stops before the first entry due later. |
| SleepQueue.SleepList.Insert | Kernel/process/sleep.c:20-35 | The entry is linked in at that place. |
| SleepQueue.SleepList.SweepList | Kernel/process/sleep.c:37-63 | The loop with its trailing link leaves a well-linked list of what the sweep on values keeps, and wakes the same processes in the same order. |
| SleepQueue.SleepList.TickHandler | Kernel/process/sleep.c:37-63 | Refines the sweep on values. |
| Kernel.BlockSets | Kernel/process/scheduler.c:123-134 | Blocking succeeds exactly for a live process that is not blocked, and blocks just that one. |
| Kernel.UnblockSets | Kernel/process/scheduler.c:136-151 | Unblocking succeeds exactly for a blocked process other than pid 1, and unblocks just that one. |
| Kernel.TickKeeps | Kernel/asm/interrupts.asm:211-219 | A timer interrupt, with the sweep, the wake-ups and the dispatch, keeps the machine's invariant and resumes with the right stack pointer. |
| Kernel.SemWaitKeeps | Kernel/syncro/sem.c:90-116 | So does a wait on a semaphore. |
| Kernel.SemPostKeeps | Kernel/syncro/sem.c:63-88 | So does a post. |
| Kernel.SleepKeeps | Kernel/interrupts/syscallsManager.c:170-180 | So does going to sleep. |
| Kernel.WaitChildrenKeeps | Kernel/process/process.c:119-130 | So does waiting for children. |
| Kernel.KillKeeps | Kernel/process/scheduler.c:179-193 | So does killing a process wherever it waits, with the wake-up of a parent that does not wait on a semaphore or a tick. |
| Kernel.ExitKeeps | Kernel/process/process.c:82-90 | So does the end of the running process, with the same wake-up. |
| Kernel.StepKeeps | Kernel/process/scheduler.c:17-193 | Every harmless event keeps the invariant, and one that reschedules resumes right. |
| Kernel.StepKeepsIff | Kernel/process/scheduler.c:17-193 | For every event: the invariant still holds after it if and only if the event is harmless, that is the pid of a new process is in no queue, an unblock from outside or the end of a child meets no process that waits elsewhere, a close finds its waiters' positions to be live pids, and so on. |
| Kernel.SemCloseKeepsIff | Kernel/syncro/sem.c:47-59 | A close, with its wake-ups, keeps it if and only if every live waiter stands in a position that is the pid of a live process. |
| Kernel.BootKeeps | Kernel/kernel.c:94-106 | The state after the first dispatch satisfies the invariant. |
| Kernel.NobodyIsLost | Kernel/syncro/sem.c:74-110 | In every state that a run of harmless events from boot reaches, a live process stands exactly once in exactly one semaphore queue, the sleep queue or among the parked ones if it is blocked, and otherwise in none and on the ready list. |
| Kernel.OneRuns | Kernel/process/scheduler.c:17-47 | In every such state exactly one process is running and it owns the current node, and every reschedule resumes the process it picks where that process left off. |
| Effects.StepStatuses | Kernel/process/scheduler.c:50-193 | For every event and every process: it lives on unless the event kills it or it exits; it is blocked afterwards if and only if the event makes it wait, or it was blocked and the event does not wake it; who that is is said event by event, the parent of a process that ends included. |
| Effects.StepPriorities | Kernel/process/scheduler.c:123-223 | Only its creation and a change of priority store a priority for a process. |
| Effects.PriorityIsLastStored | Kernel/process/scheduler.c:136-151 | In every state that a run from boot reaches, a live process has the priority last stored for it, whatever it waited for in between. |
| Effects.StepBooks | Kernel/process/scheduler.c:20-38 | The stack pointer to resume a process with is the one it came into its last reschedule with, or was created with; the clock moves with ticks alone. |
| Effects.StepSems | Kernel/syncro/sem.c:21-116 | Every event changes at most the semaphore it names: value and queue after an opening, a close, a wait and a post. |
| Effects.WokenJoinInOrder | Kernel/process/sleep.c:50-56 | A tick puts those it wakes behind everybody on the ready list, in the order in which they stood in the sleep list. |
| Kernel.WaitNeverRefused | Kernel/syncro/sem.c:100-104 | A wait on an open semaphore is never refused for lack of room. |
| Kernel.WaitBlocks | Kernel/syncro/sem.c:100-110 | A wait with no unit left puts the caller at the end of the queue, blocked and stored with its stack pointer, and another process runs. |
| Kernel.SleepWaits | Kernel/interrupts/syscallsManager.c:170-180 | Sleeping leaves an entry due the given number of ticks from now, and the caller blocked and stored likewise. |
| Kernel.PostWakes | Kernel/syncro/sem.c:74-84 | After a post the live process that has waited longest is on the ready list and waits nowhere. |
| Kernel.TickWakes | Kernel/process/sleep.c:50-56 | A tick advances the clock by one, and after it every live sleeper whose deadline it reaches is on the ready list and waits nowhere. |
| Kernel.WakeUpOfInitIsLost | Kernel/process/scheduler.c:136-137 | If pid 1 waited on a semaphore, a post would take it off the queue and leave it blocked with nothing to wait for. |
| DiningTable.TakeApart | Userland/SampleCodeModule/phylo.c:49-58 | Taking forks keeps neighbours from eating together. |
| DiningTable.LeaveLeftApart | Userland/SampleCodeModule/phylo.c:29-39 | So does serving the left neighbour. |
| DiningTable.LeaveRightApart | Userland/SampleCodeModule/phylo.c:40-45 | So does serving the right one. |
| DiningTable.RemoveLastApart | Userland/SampleCodeModule/phylo.c:135-154 | So does a removal, for the pair that becomes adjacent. |
| DiningTable.TakeFed | Userland/SampleCodeModule/phylo.c:49-58 | Taking forks leaves nobody waiting without an eating neighbour. |
| DiningTable.LeaveLeftFed | Userland/SampleCodeModule/phylo.c:29-39 | After the first half of leaving only the right neighbour can be waiting so. |
| DiningTable.LeaveRightFed | Userland/SampleCodeModule/phylo.c:40-45 | After the second half nobody is. |
| DiningTable.JoinOrphans | Userland/SampleCodeModule/phylo.c:123-125 | A join leaves a philosopher waiting for nobody if and only if it is the first or the last and its eating neighbour was the one across the new place. |
| DiningTable.RemoveLastOrphans | Userland/SampleCodeModule/phylo.c:141-154 | A removal does so if and only if the one removed was the only eating neighbour and the new neighbour is not eating. |
| DiningTable.SecondNeverOrphaned | Userland/SampleCodeModule/phylo.c:196-201 | The second philosopher is never left so by a join, or by a removal above the minimum. |
| DiningTable.PhyloTable.TakeForks | Userland/SampleCodeModule/phylo.c:49-58 | The body, with its modular indexes, does to the states what `Take` says. |
| DiningTable.PhyloTable.LeaveForks | Userland/SampleCodeModule/phylo.c:29-45 | The body does what the two halves of leaving say. |
| DiningTable.PhyloTable.NewPhylo | Userland/SampleCodeModule/phylo.c:113-123 | Records the pid and counts the newcomer. |
| DiningTable.PhyloTable.RemovePhylo | Userland/SampleCodeModule/phylo.c:146-154 | Closes the gap at any index in both arrays. |
| Philosophers.PostForkForm | Userland/SampleCodeModule/phylo.c:34-45 | A post to a philosopher that has been given the forks reaches that philosopher, at once or when it comes to wait. |
| Philosophers.PhilStepKeeps | Userland/SampleCodeModule/phylo.c:29-72 | Every step of a philosopher keeps the invariant: only the owner of the global semaphore is inside, queues hold exactly those who wait, and the right to eat is one unit that exists exactly while the state is EATING. |
| Philosophers.MainStepKeeps | Userland/SampleCodeModule/phylo.c:85-157 | So does every step of joining and removing, with any pid for a new philosopher that is not live. |
| Philosophers.SleepLengths | Userland/SampleCodeModule/phylo.c:64-205 | A philosopher rests and eats for 20 ticks; main sleeps 1 tick before a removal and 10 at the prompt. |
| Philosophers.RemovalWaitsIff | Userland/SampleCodeModule/phylo.c:139-157 | When main comes back to remove the last philosopher, that one goes if and only if not both its neighbours are eating. |
| Philosophers.DinersBounded | Userland/SampleCodeModule/phylo.c:85-201 | There are never more than ten at the table; they join and leave one at a time, and without a quit nobody leaves a table of three. |
| Philosophers.PhilStepStale | Userland/SampleCodeModule/phylo.c:29-72 | The pids of removed philosophers stand in the queue of the global semaphore only in front of main, and in none of it once main is inside again; a philosopher's step keeps this. |
| Philosophers.MainStepStale | Userland/SampleCodeModule/phylo.c:135-157 | So does a step of main, so that a new philosopher's pid is never one that is still queued. |
| Philosophers.TickKeeps | Kernel/process/sleep.c:37-63 | A tick keeps it too: as long as each live process has its own entry in the sleep list and no other, everybody it wakes is asleep. |
| Philosophers.PhilStepSleepers | Userland/SampleCodeModule/phylo.c:64-72 | A philosopher's step keeps this match between the sleep list and those who are asleep. |
| Philosophers.MainStepSleepers | Userland/SampleCodeModule/phylo.c:85-157 | So does a step of main, if a new philosopher's pid is none that the list still holds. |
| Philosophers.OnlyPrudentFits | Kernel/process/process.c:146-155 | The creation of a philosopher keeps the whole invariant if and only if its pid is none that the sleep list still holds. |
| Philosophers.TickClears | Kernel/process/sleep.c:46-62 | After a tick the sleep list holds no pid that is not live. |
| Philosophers.NoneDeadStays | Userland/SampleCodeModule/phylo.c:29-157 | So it stays until somebody dies. |
| Philosophers.ClearedIsPrudent | Kernel/process/process.c:146-155 | While it is so, every pid that is not live may be given to a new philosopher. |
| Philosophers.NoTwoNeighboursEat | Userland/SampleCodeModule/phylo.c:29-157 | Over every interleaving with ticks and changing membership, as long as no new philosopher gets a pid that the sleep list still holds, no two neighbours are both between the return of take_forks and the call of leave_forks. |
| Philosophers.OneInside | Userland/SampleCodeModule/phylo.c:29-61 | In the same runs at most one process is ever in the section the global semaphore guards. |
| Philosophers.WaitingHaveEatingNeighbours | Userland/SampleCodeModule/phylo.c:29-61 | With fixed membership, whenever nobody is inside every waiting philosopher has an eating neighbour. |
| Philosophers.SomebodyCanMove | Userland/SampleCodeModule/phylo.c:29-157 | In the same runs, until main quits and with two or more at the table, either somebody inside can go on or some philosopher waits for no semaphore and, if it is asleep, has its entry in the sleep list. |
| TableRuns.LeftBehind | Userland/SampleCodeModule/phylo.c:141-154 | A run from the empty table, with no pid reused, of four joins and the removal of the last while it eats, after which the first is blocked waiting between two that think. |
| TableRuns.NeighboursEat | Kernel/process/process.c:146-155 | A run from the empty table, with a pid reused before the next tick, after which the third and the fourth of four philosophers eat. |
| Pipe.StoreKeeps | Kernel/pipe/pipe.c:111-114 | A writer that has been granted a place finds one, and its byte overwrites nothing unread. |
| Pipe.TakeKeeps | Kernel/pipe/pipe.c:130-133 | A reader that has been granted a byte gets the oldest one not yet read. |
| Pipe.PostDataKeeps | Kernel/pipe/pipe.c:115-115 | After a byte has been announced units still add up to the ring. |
| Pipe.PostFreeKeeps | Kernel/pipe/pipe.c:134-134 | And after a place has. |
| Pipe.ByteIsAnnounced | Kernel/pipe/pipe.c:115-115 | Announcing a byte gives it to the reader that has waited longest of those alive, or else puts it on offer, and loses no unit. |
| Pipe.PlaceIsAnnounced | Kernel/pipe/pipe.c:134-134 | So with a place and the writers. |
| Pipe.InitBooked | Kernel/pipe/pipe.c:100-137 | Over every run the bytes stored are those of the writers' steps in order, the bytes taken are as many as the readers' steps, and the units lost are exactly the deaths of processes that had one. |
| Pipe.DiesKeeps | Kernel/process/scheduler.c:179-193 | A process that dies with a unit in hand loses that unit, and nothing else goes wrong. |
| Pipe.StepKeepsIff | Kernel/pipe/pipe.c:100-137 | Every event keeps the pipe in order if and only if it is harmless: a new process has no pid that is still in its queues, and nobody who waits for the pipe is woken by anything else. |
| Pipe.ReadsWhatNobodyWrote | Kernel/syncro/sem.c:108-115 | A reader of an empty pipe that is woken by anything else takes a byte although none was written. |
| Pipe.FirstInFirstOut | Kernel/pipe/pipe.c:100-137 | After any interleaving the bytes read are a prefix of the bytes that writers stored, as many as there were reads; at most 2048 are stored, and each unread byte is still in its place. |
| Pipe.UnitsComeBack | Kernel/pipe/pipe.c:82-98 | Once all have finished, the values are the stored bytes and the free places of 2048, less one unit for each process that died with one; a waiting reader means no byte on offer and a waiting writer no place. |
| Pipe.Ring.Write | Kernel/pipe/pipe.c:109-117 | The loop appends as many bytes as there are free places before it would have to wait. |
| Pipe.Ring.Read | Kernel/pipe/pipe.c:128-136 | The loop takes the oldest bytes, as many as there are, and leaves the rest. |
| ModuleImage.PackedImageDecodes | Toolchain/ModulePacker/main.c:52-106 | A packed payload reads back as the modules that went in if and only if their number and sizes are below 2^32. |
| ModuleImage.ImageLayout | Toolchain/ModulePacker/main.c:52-106 | Byte for byte the image is the kernel, the number of modules, and for each module its size and its bytes; numbers are four bytes, the lowest first. |
| ModuleImage.Packer.WriteFile | Toolchain/ModulePacker/main.c:109-119 | The loop in chunks of 128 bytes copies the whole file, also when its length is a multiple of the chunk. |
| ModuleImage.Packer.WriteSize | Toolchain/ModulePacker/main.c:101-106 | Writes the size modulo 2^32, lowest byte first. |
| ModuleImage.Packer.BuildImage | Toolchain/ModulePacker/main.c:52-85 | The image is the kernel followed by the payload of the other files. |
| ModuleImage.Memcpy | Kernel/lib.c:23-58 | Both paths copy the bytes and change nothing else, for regions apart or a copy to a lower address. |
| ModuleImage.CopyWords | Kernel/lib.c:38-47 | The word path has the effect of the byte path. |
| ModuleImage.CopyBytes | Kernel/lib.c:48-55 | The byte path copies the bytes and changes nothing else. |
| ModuleImage.Memset | Kernel/lib.c:12-20 | Fills exactly the region. |
| ModuleImage.ImageHoldsPayload | Toolchain/ModulePacker/main.c:62-82 | In memory the payload starts where the kernel of the image ends. |
| ModuleImage.LoadModule | Kernel/moduleLoader.c:18-34 | Copies one module to its target and moves the cursor past it. |
| ModuleImage.LoadingStep | Kernel/moduleLoader.c:14-15 | The module at the cursor is the next one, it can be copied, and the modules loaded and to be loaded stay intact. |
| ModuleImage.LoadModules | Kernel/moduleLoader.c:9-16 | After loading a packed payload every module is, byte for byte, at its target, for any number of modules with targets apart, and no other memory has changed. |
| Bmfs.SearchExact | Bootloader/BMFS/bmfs.c:656-689 | With the records it is given the search finds the least free start, or none when there is none, if and only if there is room or no deleted record ends far enough from the end of the disk. |
| Bmfs.SearchRight | Bootloader/BMFS/bmfs.c:634-689 | For every directory of 64 records, with or without an end mark, the exact condition under which the search finds the least free start or none. |
| Bmfs.SearchDeleted | Bootloader/BMFS/bmfs.c:670-683 | Behind the live records something is found if and only if some deleted record ends far enough from the end of the disk. |
| Bmfs.CreateChooses | Bootloader/BMFS/bmfs.c:608-689 | Refuses a name exactly when it exists, a directory exactly when all its records are live; otherwise the file goes to the least start clear of every file, and is refused when there is none, if and only if that condition holds. |
| Bmfs.CreateOnDisk | Bootloader/BMFS/bmfs.c:608-704 | In MiB: the file goes to the least block x from which `2x`, its size rounded up to even and 2 MiB more fit the disk, clear of every file, or is refused because there is none, if and only if the search serves well; it is entered in the first record not in use with half that size in blocks, an end mark moves on, and no other record changes. |
| Bmfs.ComesRightIsServesWell | Bootloader/BMFS/bmfs.c:634-689 | The exact condition in the same terms: with an end mark, there is room or no deleted file ended so that the request would still fit behind it; without one, block 1 is free for it or the disk too small. |
| Bmfs.CreateKeepsFiles | Bootloader/BMFS/bmfs.c:691-704 | For every name: the file is listed if and only if the name starts with neither 0 nor 1, and the live records are those before and this one unless an empty name or a forgetful directory puts an end mark in front of one. |
| Bmfs.CreateKeepsFilesApart | Bootloader/BMFS/bmfs.c:691-704 | After creating a file with such a name the files lie apart if and only if the search came right. |
| Bmfs.FilesLieApart | Bootloader/BMFS/bmfs.c:608-821 | From a formatted disk, files lie apart and inside the disk after every run of creates and deletes in which no file was created while the search came wrong or the directory would forget; without deletes that is every run. |
| Bmfs.DeleteKeepsFilesApart | Bootloader/BMFS/bmfs.c:800-821 | Deleting keeps the end mark, removes exactly one live record, and keeps files apart. |
| Bmfs.DeletedRecordRewinds | Bootloader/BMFS/bmfs.c:681-682 | A full disk with a deleted record on which the search returns the block of a live file. |
| Bmfs.UnmarkedDirectoryForgets | Bootloader/BMFS/bmfs.c:634-704 | Without an end mark but with a deleted record, the file goes to block 1 whatever is there, and when the first record is the deleted one the other 63 are lost. |
| Bmfs.EmptyFileMisleads | Bootloader/BMFS/bmfs.c:661-684 | With a file of no size at block 1, the search overwrites a file although there is room. |
| Bmfs.Disk.FindFile | Bootloader/BMFS/bmfs.c:203-229 | Finds a live record of that name before the end mark, or reports that there is none. |
| Bmfs.Disk.Scan | Bootloader/BMFS/bmfs.c:634-649 | Counts the records and finds the slot as the definitions say, also for a directory with no end mark. |
| Bmfs.Disk.FindStart | Bootloader/BMFS/bmfs.c:661-684 | The loop computes the search, with unsigned subtraction. |
| Bmfs.Disk.CreateFile | Bootloader/BMFS/bmfs.c:608-717 | Refines creation on values, including what the first byte of the name makes of the record, and the end mark that follows a record put in its place. |
| Bmfs.Disk.DeleteFile | Bootloader/BMFS/bmfs.c:800-821 | Marks a live record of that name in front of the end mark as deleted and changes nothing else. |

## Left out

- Semaphores.Conservation: the value is unbounded; the original is a 16-bit number and overflows after 32767 unanswered posts. The busy-wait locks are not modelled, since a kernel call runs alone.
- Kernel.OneRuns: starts after the first dispatch, because `scheduler` looks at the current process before there is one, and treats the record of a process that has ended as TERMINATED although its memory has been released.
- Scheduler.ReadyQueue.Schedule: the process table is a map from pids instead of an array of 20 slots, names and priority names are not kept, and the memory manager is an argument that gives the address of a new list node.
- Philosophers.SomebodyCanMove: individual philosophers can starve while others come and go; while the table is being emptied on quitting only safety is claimed.
- Philosophers.MainStepKeeps: killing the last philosopher, closing its semaphore and closing the gap are one step, which the global semaphore protects; the error paths of joining (no memory, no process) are not steps.
- Pipe.Ring.Write: runs up to the first byte it would block on; who blocks and who is woken is in the system of `Pipe.FirstInFirstOut`. Descriptor checks and the life cycle of descriptors and of several pipes are not modelled.
- ModuleImage.LoadModules: memory is one array of bytes and the payload is wholly inside it; the loop index of the original is a signed int.
- Bmfs.Disk.CreateFile: names are not bounded to 32 bytes and the directory is not written to disk; `qsort` is an argument that may be any order its comparison allows.
- `quitCPU` calls the scheduler and drops the stack pointer it returns; it is not a step.
- A process that blocks itself through the block system call goes on running until the next tick; it is not a step.
- Process creation beyond the ready list and the table: arguments, names, foreground and descriptors.
- The keyboard ring, whose length and modulus differ, the shell, the commands, video, clock and boot code.
- BMFS list, read, write, format and initialise.
