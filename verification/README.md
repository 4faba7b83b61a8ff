# Verified models of cos-rs

cos-rs is a small x86-64 kernel with its own collections, allocators, synchronisation
primitives and file system. This project models its most state-heavy parts in Dafny and
proves what they promise for every input, every run and every interleaving.

| part | files |
|---|---|
| red-black tree map with parent links and a shared sentinel | `RBTreeShape`, `RBTreeSplice`, `RBTreeMap` |
| frame allocator, 4-level page tables, virtual memory | `PhysicalMemory`, `PageTree`, `PageTables`, `VirtualMemory`, `VirtualBytes` |
| fair semaphore, mutex, readers-writer lock | `Semaphore`, `SemaphoreCalls`, `SemaphoreLedger`, `Locks` |
| single-producer single-consumer channel | `Gate`, `ChannelEnd`, `SpscChannel`, `EndProgress`, `SpscProgress` |
| condition variable, one-shot channel | `ConditionVariable`, `Oneshot` |
| kernel async runtime and suspend/wake handshake | `KernelRuntime`, `BlockOn` |
| atomic reference counting | `SharedPointer` |
| slab heap | `SlabLists`, `SlabGeometry`, `SlabHeap` |
| FAT32 file contents and volume size | `FatVolume`, `FatFile`, `FatWrite`, `ClusterCount` |
| BIOS memory-map normalisation | `MemoryMap` |
| shared helpers | `Arithmetic`, `Bytes`, `Options`, `Pieces`, `Sums` |

How things are modelled:

- Pointers into the heap are addresses in an explicit memory (a `map` field that methods
  reassign). A ghost tree, list or chain says what the memory holds, and every method
  shows that it still does.
- Where a focus moves through a tree, the tree is split into the subtree at the focus and
  the path above it (a zipper); red-black heights, search order and memory layout are stated on both halves.
- Concurrent code is a state machine whose steps are single atomic operations or
  lock-protected sections, under sequential consistency. Release calls and wakes that a caller still owes are
  part of the state. Safety theorems hold for every list of enabled steps. What an operation promises is
  stated in terms of the steps its callers take (what was asked for, sent, cloned, dropped), not of fields that the
  machine keeps for itself. That an operation gets where it should is shown by giving the steps that take it there
  from any reachable state, together with a measure that they use up.
- Loops that run under interference (`SemaphoreCalls`) take the steps of other callers as
  a parameter and are proved to be runs of the step machine whatever those steps are.
- What comes from outside is a parameter: the answers of the global allocator
  (`RBTreeMap.TryInsert`), of the page provider (`SlabHeap.Heap.Allocate`), and the
  initial contents of memory and disk.

Choices that the source leaves open or that need saying:

- `Write` of a FAT32 file checks `closed` before size, as the code does. After `DiskFull` the
  code leaves the cursor where the disk ended and the recorded size as it was, so the next `read` would subtract
  a larger number from a smaller one; `Write` says exactly when that happens and `DiskFullStrands` is an instance.
- A mounted volume may come with any free count, also 0xFFFF_FFFF for "unknown". The free-cluster
  search restarts at cluster 2 for as long as a summary exists, so with a non-zero count it ends only if some
  cluster is free. `Write` therefore requires that the count does not promise more than there is, or that there is room.
- Deleting from the red-black tree does not tell the sentinel its parent, except when the
  successor is the deleted node's right child. While the sentinel is as it was made, a black leaf that has to leave
  its place and is not the root is therefore taken out without rebalancing: the map is right, the heights are not.
  `FindsWay` is the exact condition.
- Normalising the memory map cuts a usable region where the next one begins and does not look behind that one. A
  map is called tame when no two regions begin at the same address and a withheld region reaches at most
  into the next one, ending inside it and before any other begins; on such maps the loss is characterised exactly.
- `clone` of a strong handle ignores the result of raising the strong count; the model keeps that
  branch and the invariant shows that it is never taken.
- `release_part` releases before it lowers the guard's own count; since the guard is
  borrowed exclusively meanwhile, the model lowers both in one step.

## Model

| member | source | states |
|---|---|---|
| RBTreeMap.RBTreeMap.constructor | library/try_alloc/src/collection/rbtree/map.rs:50-54 | a new tree is valid and empty |
| RBTreeMap.RBTreeMap.Find | library/try_alloc/src/collection/rbtree/map.rs:203-229 | finds a node exactly when the key is in the map, and it holds that key's value |
| RBTreeMap.RBTreeMap.Get | library/try_alloc/src/collection/rbtree/map.rs:67-74 | lookup is lookup in the map the tree stands for |
| RBTreeMap.RBTreeMap.RotateLeft | library/try_alloc/src/collection/rbtree/map.rs:138-161 | the pointer updates turn the subtree into its left rotation wherever it hangs; same in-order items, same nodes, nothing else in memory changes |
| RBTreeMap.RBTreeMap.RotateRight | library/try_alloc/src/collection/rbtree/map.rs:175-198 | the mirror image |
| RBTreeMap.RotatedLeftInorder | library/try_alloc/src/collection/rbtree/map.rs:126-134 | a left rotation keeps the in-order sequence |
| RBTreeMap.RotatedRightInorder | library/try_alloc/src/collection/rbtree/map.rs:163-171 | a right rotation keeps the in-order sequence |
| RBTreeMap.RBTreeMap.Replace | library/try_alloc/src/collection/rbtree/map.rs:236-271 | a detached node takes over colour, children and parent of a tree node, which leaves the tree with dangling links |
| RBTreeMap.RBTreeMap.FlipColors | library/try_alloc/src/collection/rbtree/map.rs:489-494 | recolouring with a red uncle keeps shape, items and layout |
| RBTreeMap.RBTreeMap.InsertStepLeft | library/try_alloc/src/collection/rbtree/map.rs:487-507 | one round of the fix-up keeps "only the focus may have a red parent" and moves it up |
| RBTreeMap.RBTreeMap.InsertStepRight | library/try_alloc/src/collection/rbtree/map.rs:508-530 | the mirror image |
| RBTreeMap.RBTreeMap.InsertFixup | library/try_alloc/src/collection/rbtree/map.rs:480-536 | the loop ends, with black root, no red-red edge and equal black heights restored and the same items |
| RBTreeMap.RBTreeMap.Insert | library/try_alloc/src/collection/rbtree/map.rs:307-352 | keeps all tree invariants and refines map update; a node with an equal key is swapped out and returned detached |
| RBTreeMap.RBTreeMap.TryInsert | library/try_alloc/src/collection/rbtree/map.rs:96-102 | map update with the old value returned, its node freed and no other memory come or gone; nothing changes when no node can be allocated |
| RBTreeMap.RBTreeMap.RedSiblingLeft | library/try_alloc/src/collection/rbtree/map.rs:635-641 | deletion case 1: the black deficit stays at x, now below a red parent |
| RBTreeMap.RBTreeMap.BlackNephewsLeft | library/try_alloc/src/collection/rbtree/map.rs:643-654 | deletion case 2: the deficit moves to the parent, or ends there when the parent was red; on a sentinel whose links lead to itself nothing changes |
| RBTreeMap.RBTreeMap.RedNephewLeft | library/try_alloc/src/collection/rbtree/map.rs:656-664 | deletion case 3: afterwards the far nephew is red |
| RBTreeMap.RBTreeMap.FarNephewLeft | library/try_alloc/src/collection/rbtree/map.rs:666-673 | deletion case 4: the deficit is gone |
| RBTreeMap.RBTreeMap.RedSiblingRight | library/try_alloc/src/collection/rbtree/map.rs:678-684 | case 1 mirrored |
| RBTreeMap.RBTreeMap.BlackNephewsRight | library/try_alloc/src/collection/rbtree/map.rs:686-697 | case 2 mirrored |
| RBTreeMap.RBTreeMap.RedNephewRight | library/try_alloc/src/collection/rbtree/map.rs:699-707 | case 3 mirrored |
| RBTreeMap.RBTreeMap.FarNephewRight | library/try_alloc/src/collection/rbtree/map.rs:709-716 | case 4 mirrored |
| RBTreeMap.RBTreeMap.DeleteFixup | library/try_alloc/src/collection/rbtree/map.rs:626-722 | from any tree that is one black short at x (possibly the sentinel, with its true parent) the loop ends with all red-black invariants restored and the same in-order items; at the root, or at a sentinel that knows no parent, it ends and changes nothing |
| RBTreeMap.RBTreeMap.Transplant | library/try_alloc/src/collection/rbtree/map.rs:277-298 | a subtree, or the sentinel, takes the place of a node: links above and below are right, the sentinel is not written, nothing else changes |
| RBTreeMap.RBTreeMap.TreeMinimum | library/try_alloc/src/collection/rbtree/map.rs:553-564 | the loop ends at the leftmost node, reached by left links only |
| RBTreeMap.RBTreeMap.Promote | library/try_alloc/src/collection/rbtree/map.rs:589-605 | the successor leaves its place and takes place, children and colour of the deleted node; the sentinel learns a parent only when the successor is the right child and has no child |
| RBTreeMap.RBTreeMap.Recolor | library/try_alloc/src/collection/rbtree/map.rs:607-612 | afterwards the tree is red-black exactly when the node that left was red, has been replaced, was the root, or the sentinel names its parent |
| RBTreeMap.RBTreeMap.Delete | library/try_alloc/src/collection/rbtree/map.rs:574-614 | the map loses exactly the node's key, order and links hold, and the tree is a valid red-black tree if and only if the fix-up finds its way (`FindsWay`, checkable beforehand) |
| RBTreeMap.RBTreeMap.Remove | library/try_alloc/src/collection/rbtree/map.rs:115-124 | returns the key's value, removes it from the map and frees its node and nothing else; the tree stays valid if and only if the fix-up finds its way from where the key is |
| RBTreeMap.ThreeBlackNodes | library/try_alloc/src/collection/rbtree/map.rs:582-613 | a valid tree of three black nodes for which the fix-up does not find its way: without its left leaf it is not red-black |
| RBTreeSplice.RemoveItem | library/try_alloc/src/collection/rbtree/map.rs:574-614 | leaving out one node of a search tree removes exactly its key from the map |
| RBTreeSplice.LeastFirst | library/try_alloc/src/collection/rbtree/map.rs:589-605 | the successor is the first item of the right subtree, and the rest of it keeps its order |
| RBTreeSplice.TooLow | library/try_alloc/src/collection/rbtree/map.rs:607-612 | a tree with one path too short by a black node is not red-black, wherever the path is |
| PhysicalMemory.ReadBack | kernel/src/memory/page.rs:805-828 | a table entry written is the one read back, and no other entry of the table changes |
| PhysicalMemory.EntryRoundTrip | kernel/src/memory/page.rs:861-883 | flag bits and frame address do not disturb each other |
| PageTables.Machine.constructor | kernel/src/memory/physics.rs:113-117 | the machine starts with every frame from the first allocation address on free |
| PageTables.Machine.AllocFrame | kernel/src/memory/physics.rs:126-169 | hands out a free frame, the one returned last or else the lowest never handed out, and removes exactly it from the free frames, or fails exactly when none is left |
| PageTables.Machine.AllocFresh | kernel/src/memory/physics.rs:136-169 | the same for frames never handed out before, taken region by region |
| PageTables.RealignsUp | kernel/src/memory/physics.rs:148-151 | an unaligned start is moved up to the next frame exactly in the first two frames, above them it goes back; aligned starts stay |
| PageTables.Machine.DellocFrame | kernel/src/memory/physics.rs:176-183 | adds exactly that frame to the free ones and writes to no other frame |
| PageTables.Machine.NextTable | kernel/src/memory/page.rs:385-395 | the table that an entry leads to, or a blank frame that can become it; fails exactly when a table is missing and no frame is free |
| PageTables.Machine.ReachTables | kernel/src/memory/page.rs:403-437 | all three tables on the way to a page; fails, with every frame given back, exactly when fewer frames are free than tables are missing |
| PageTables.Machine.WriteEntries | kernel/src/memory/page.rs:450-473 | the entries are written bottom-up, and only where a new frame hangs |
| PageTables.Machine.WriteMemoryPage | kernel/src/memory/page.rs:371-485 | succeeds exactly when as many frames are free as tables are missing, and then maps exactly that page to that frame: every other page keeps translation and bytes, all frames stay partitioned into free, table, mapped and on loan, and no table is empty; on failure tables and free frames are as before |
| PageTree.LinkTree | kernel/src/memory/page.rs:450-473 | memory after the four writes holds the page tree with the new path in it |
| PageTree.WrittenIsPath | kernel/src/memory/page.rs:450-473 | writing bottom-up gives the same memory as entering level by level |
| PageTables.Machine.IsAllEmpty | kernel/src/memory/page.rs:832-840 | true exactly when no path goes on below the table |
| PageTables.Machine.Unhang | kernel/src/memory/page.rs:525-531 | frees a childless frame and clears its entry: the tree loses exactly that node, the frame becomes free |
| PageTables.Machine.FreeEmptyTables | kernel/src/memory/page.rs:533-567 | frees every table on the way that has become empty; translations stay |
| PageTables.Machine.RemoveMemoryPage | kernel/src/memory/page.rs:497-577 | removes exactly that page: every other page keeps translation and bytes, and no table is left empty |
| PageTree.SameTranslationsSameTree | kernel/src/memory/page.rs:487-577 | trees without empty tables that translate the same pages have the same tables |
| VirtualMemory.AddressIndices | kernel/src/memory/page.rs:740-745 | the shifts and masks take the page number apart |
| VirtualMemory.Lookup | kernel/src/memory/page.rs:738-796 | returns exactly what the map of translations says |
| VirtualMemory.FindFreeVirtualMemory | kernel/src/memory/page.rs:331-357 | finds the lowest run of unmapped pages in its range, or shows that there is none |
| VirtualMemory.FreeMappedFrame | kernel/src/memory/page.rs:264-272 | unmaps exactly the pages of the run; all others keep translation and bytes |
| VirtualMemory.MapOne | kernel/src/memory/page.rs:219-250 | allocates a frame and maps one page to it, exactly when enough frames are free for the page and its missing tables; otherwise changes nothing |
| VirtualMemory.Rollback | kernel/src/memory/page.rs:221-250 | unmapping the pages mapped so far restores every table and the set of free frames |
| VirtualMemory.AllocMappedFrame | kernel/src/memory/page.rs:199-254 | maps the lowest fitting run to frames that were free exactly when as many are free as its pages and their missing tables need; otherwise reports which kind of memory ran out and restores tables, translations and free frames; pages mapped before show the same bytes either way |
| VirtualMemory.Spent | kernel/src/memory/page.rs:219-250 | part of the way through, the free frames are fewer by exactly the pages and tables that the pages so far lacked |
| VirtualMemory.TooFew | kernel/src/memory/page.rs:219-250 | a page that cannot be mapped for lack of frames means that the whole run needed more than there were |
| VirtualMemory.DistinctFrames | kernel/src/memory/page.rs:199-254 | distinct pages lie in distinct frames |
| VirtualBytes.WriteBytesInPage | kernel/src/memory/page.rs:672-681 | copying a chunk into a page is writing its bytes one by one |
| VirtualBytes.WritePageTableMemory | kernel/src/memory/page.rs:663-686 | refines a byte-by-byte virtual write; succeeds exactly when every byte's page is mapped, otherwise stops at the first that is not; frames of no mapped page keep their bytes |
| VirtualBytes.ReadPageTableMemory | kernel/src/memory/page.rs:712-735 | returns the bytes of the range, exactly when all of it is mapped |
| VirtualBytes.WrittenBytesRead | kernel/src/memory/page.rs:663-735 | what was written is what is read |
| VirtualBytes.OtherBytesRead | kernel/src/memory/page.rs:663-735 | every other virtual byte reads as before |
| Semaphore.ConservedStep | library/async_locks/src/semaphore.rs:146-306 | every step keeps free + banked + granted + guarded + returning permits equal to the total, with 64-bit arithmetic that never wraps |
| Semaphore.LineStep | library/async_locks/src/semaphore.rs:199-236 | every step keeps the line in ticket order, with everyone in it who waits, and all grants before them |
| Semaphore.FairStep | library/async_locks/src/semaphore.rs:199-306 | every step keeps fairness and progress |
| Semaphore.WokenStep | library/async_locks/src/semaphore.rs:212-219 | every step keeps granted waiters woken or about to be woken by the holder of the lock |
| Semaphore.RunInv | library/async_locks/src/semaphore.rs:123-306 | all of this holds after every run |
| Semaphore.PermitsConserved | library/async_locks/src/semaphore.rs:146-306 | over every interleaving of acquire, poll, cancel and release, free + banked + granted + guarded + returning permits are the initial ones plus explicit releases minus forgotten guards, up to `usize::MAX` |
| Semaphore.ServedInOrder | library/async_locks/src/semaphore.rs:199-236 | grants follow queue order among waiters that have not given up |
| Semaphore.NoPermitIdle | library/async_locks/src/semaphore.rs:199-236 | between critical sections: waiters queued means nothing free, none queued means nothing banked, and with no release outstanding the head waits for more than is banked |
| Semaphore.HolderFinishes | library/async_locks/src/semaphore.rs:199-229 | whoever holds the queue's lock uses up a measure that nobody else adds to |
| Semaphore.HolderCanStep | library/async_locks/src/semaphore.rs:199-229 | the holder of the lock is never stuck |
| Semaphore.GrantWakes | library/async_locks/src/semaphore.rs:212-219 | in every run a granted waiter's task has been woken, or waking it is the only thing the holder of the lock can do next |
| Semaphore.GuardsShare | library/async_locks/src/semaphore.rs:238-250 | two guards together never hold more than the total |
| SemaphoreCalls.FairSemaphore.TryAcquire | library/async_locks/src/semaphore.rs:146-165 | the load and compare-exchange loop is a run ending in one atomic acquisition, or fails having seen too few permits, whatever others do in between |
| SemaphoreCalls.FairSemaphore.Other | library/async_locks/src/semaphore.rs:146-306 | another caller's step that needs no lock changes the fields exactly as the step machine says, whenever it is possible |
| SemaphoreCalls.FairSemaphore.OtherLocked | library/async_locks/src/semaphore.rs:167-229 | the same for steps under the queue's lock |
| SemaphoreCalls.FairSemaphore.PopHead | library/async_locks/src/semaphore.rs:202-210 | popping the head is the machine's inspection step |
| SemaphoreCalls.FairSemaphore.TryGrant | library/async_locks/src/semaphore.rs:211-223 | the compare-exchange is the machine's granting step |
| SemaphoreCalls.FairSemaphore.Release | library/async_locks/src/semaphore.rs:199-229 | the release loop ends and is a run of the machine under any cancellations; afterwards the head of the queue, if no other call is owed, waits for more than is banked |
| SemaphoreLedger.AgreesStep | library/async_locks/src/semaphore.rs:146-306 | each step changes the semaphore as an account kept from the callers' side only would have it |
| SemaphoreLedger.AsRecorded | library/async_locks/src/semaphore.rs:123-306 | over every run: each waiter is queued for exactly what it asked for and has given up exactly if it was cancelled; each guard stands for what was asked less what was given back; each release call made is under way or done exactly once |
| Locks.LockRunInv | library/async_locks/src/rwlock.rs:94-145 | the semaphore invariant and "every guard is for one permit or all" hold in every run of a lock |
| Locks.MutexExcludes | library/async_locks/src/mutex.rs:61-113 | whatever steps the callers of a mutex take, the account of those steps shows at most one guard out |
| Locks.WriterExcludes | library/async_locks/src/rwlock.rs:95-132 | a caller that asked for the writer's guard, has it and has not downgraded it, is the only one with a guard |
| Locks.GuardKeepsWritersOut | library/async_locks/src/rwlock.rs:95-132 | while any caller has a guard, nobody who asked for the writer's guard and still waits has been granted it |
| Locks.DowngradeKeepsAccess | library/async_locks/src/rwlock.rs:135-145 | a writer may always downgrade and is then the only one with a guard, now a reader's, so no writer comes in between; what it owes is all but one permit |
| Gate.GateStep | library/async_locks/src/channel/spsc.rs:94-209 | each use of a channel's semaphore keeps its invariant and changes its permits by exactly what was taken or fed |
| Gate.QuietGate | library/async_locks/src/channel/spsc.rs:172-194 | with no call in progress and no queued future every permit is free: none is stuck behind a cancelled waiter |
| ChannelEnd.EndKeeps | library/async_locks/src/channel/spsc.rs:260-422 | every step of reserving, failing and cancelling keeps permits in the gate plus permit in hand, and what the other end relies on |
| EndProgress.Drains | library/async_locks/src/semaphore.rs:199-229 | release calls of a gate, left to themselves, all end |
| EndProgress.QuietGranted | library/async_locks/src/semaphore.rs:199-236 | with no release call under way and a permit in the gate, the queued future has been granted it |
| EndProgress.Reserves | library/async_locks/src/channel/spsc.rs:260-382 | whoever reserves a permit of a gate that has one comes to hold it, from whatever point of the reservation |
| EndProgress.WaitsWhenEmpty | library/async_locks/src/channel/spsc.rs:260-382 | with no permit to be had, reserving queues a future and waits |
| EndProgress.LearnsLoss | library/async_locks/src/channel/spsc.rs:260-382 | when the other end is gone and no permit is left, a reservation ends with the loss reported |
| EndProgress.CancelReturns | library/async_locks/src/channel/spsc.rs:384-422 | a cancelled reservation leaves no future behind and no permit lost |
| SpscChannel.KeepsChannel | library/async_locks/src/channel/spsc.rs:94-209 | every step of either end keeps the ring, the permit counts and the state words in agreement |
| SpscChannel.InOrder | library/async_locks/src/channel/spsc.rs:94-209 | over every run: what has been received is, in order, what `send` was called with, as far as receives have completed; at most `size` items are under way; a write always hits an empty slot and a receive the slot of the next item |
| SpscChannel.ClosedByDrop | library/async_locks/src/channel/spsc.rs:424-450 | an end counts as gone exactly when it has been dropped |
| SpscChannel.DropIsTold | library/async_locks/src/channel/spsc.rs:260-450 | an end without a call under way can be dropped, and the other's next `send` or `recv` finds it gone at once, before it waits |
| SpscChannel.FeedNeverBlocked | library/async_locks/src/channel/spsc.rs:136-144 | an end that has used its slot can always release the other's permit |
| SpscChannel.SenderLostAfterLastItem | library/async_locks/src/channel/spsc.rs:172-194 | async `recv` reports the sender lost only after every sent item was received |
| SpscChannel.LostSenderStillDelivers | library/async_locks/src/channel/spsc.rs:173-181 | while an item is left, the attempt after the sender's drop succeeds |
| SpscChannel.TrySendTold | library/async_locks/src/channel/spsc.rs:94-117 | `try_send` can find the receiver gone exactly when it is, and from then on no call sends anything |
| SpscChannel.TryReceiveTold | library/async_locks/src/channel/spsc.rs:148-194 | `try_recv` can find the sender gone exactly when it is, and from then on no receive waits |
| SpscProgress.ReceiveCompletes | library/async_locks/src/channel/spsc.rs:94-209 | while an item is left, a receive that begins or is under way completes with the next one |
| SpscProgress.SendCompletes | library/async_locks/src/channel/spsc.rs:94-209 | while a slot is free and the receiver there, a send completes and its data is the last item sent |
| SpscProgress.LossIsTold | library/async_locks/src/channel/spsc.rs:172-194 | when the sender is gone and everything received, a receive ends with the loss reported |
| ConditionVariable.InvStep | library/async_locks/src/condvar.rs:49-195 | every step keeps the account of notifications and everyone who waits within reach of one |
| ConditionVariable.NotificationsAccounted | library/async_locks/src/condvar.rs:49-195 | a notification that selected a waiter is consumed by it, still with it, or passed on |
| ConditionVariable.RunsToEnd | library/async_locks/src/condvar.rs:49-72 | left to itself, a single wake ends, having selected the first in line that still waits, or nobody if none does |
| ConditionVariable.RunsToAll | library/async_locks/src/condvar.rs:74-95 | left to itself, a `wake_all` under way ends with an empty queue, having selected everyone in it that still waited and nobody else |
| ConditionVariable.WakeOne | library/async_locks/src/condvar.rs:49-72 | `wake` from its call on, with nobody interfering: exactly the first in line that waits is selected, and the call is over |
| ConditionVariable.WakeAll | library/async_locks/src/condvar.rs:74-95 | `wake_all` from its call on, with nobody interfering: exactly those in line that wait are selected, the queue is empty and the call is over |
| ConditionVariable.SelectedReturns | library/async_locks/src/condvar.rs:130-175 | a selected waiter returns by two steps of its own and consumes one notification |
| ConditionVariable.WaitReturns | library/async_locks/src/condvar.rs:74-175 | whoever waits, is woken with all others and is not dropped returns to its caller |
| ConditionVariable.DropPassesOn | library/async_locks/src/condvar.rs:177-195 | dropping a notified waiter hands its notification on: left to itself it selects the first in line that still waits, and the account of selected, consumed and held notifications balances |
| ConditionVariable.DropUnnotified | library/async_locks/src/condvar.rs:177-195 | dropping a waiter that was not notified starts no notification, and in no run afterwards is it selected |
| ConditionVariable.OverForGood | library/async_locks/src/condvar.rs:130-195 | a waiter that has returned or been dropped stays as it is in every run |
| ConditionVariable.GivesUpForNobody | library/async_locks/src/condvar.rs:49-95 | a notification gives up only when everyone who still waits has been popped by another, whose next step selects it |
| ConditionVariable.PoppedInOrder | library/async_locks/src/condvar.rs:97-99 | waiters are popped in the order in which they came |
| Oneshot.InvStep | library/async_locks/src/channel/oneshot.rs:58-200 | every step keeps mutex, status, item and wake-up state in agreement |
| Oneshot.DeliveredOnce | library/async_locks/src/channel/oneshot.rs:158-166 | what is received is what was sent, taken out of the channel, and final |
| Oneshot.LostIsLost | library/async_locks/src/channel/oneshot.rs:106-117 | the receiver reports the sender lost only if it was dropped unsent, and then on its next poll |
| Oneshot.PollTellsLoss | library/async_locks/src/channel/oneshot.rs:119-200 | once the sender is gone unsent, a poll that begins ends in no other way than with that report, whatever else happens |
| Oneshot.WakeOutstanding | library/async_locks/src/channel/oneshot.rs:58-64 | a pending receiver with an item or a lost sender has been woken, or the sender is about to wake it |
| Oneshot.PollDelivers | library/async_locks/src/channel/oneshot.rs:119-200 | after a completed send no poll ends without the item |
| Oneshot.ReceivedIsWritten | library/async_locks/src/channel/oneshot.rs:58-200 | over every run: what the receiver gets is what `send` was called with |
| Oneshot.SendArrives | library/async_locks/src/channel/oneshot.rs:58-200 | from every reachable state in which the sender is not dropped and the receiver waits, both left to themselves end with the item received, the receiver being polled only when woken |
| Oneshot.DropArrives | library/async_locks/src/channel/oneshot.rs:58-200 | a sender dropped unsent: the receiver is woken and told |
| Oneshot.ReceiverDropped | library/async_locks/src/channel/oneshot.rs:58-104 | without a receiver the sender still finishes |
| Oneshot.LossSeenInPoll | library/async_locks/src/channel/oneshot.rs:119-200 | the status is looked at again before the receiver waits, so a loss up to then is reported in the same poll |
| Oneshot.WokenByWakes | library/async_locks/src/channel/oneshot.rs:58-104 | over every run the receiver is due for a poll exactly if a wake came after its last poll began |
| KernelRuntime.InvStep | kernel/src/multitask/async_rt.rs:102-247 | every step of kernel thread, scheduler and wakers keeps the invariants below |
| KernelRuntime.OnePlace | kernel/src/multitask/async_rt.rs:143-178 | an unfinished task is in exactly one of ready, suspended and being polled |
| KernelRuntime.WakeForcesPoll | kernel/src/multitask/async_rt.rs:102-130 | a task woken since its poll began is not put to sleep: it goes back to the ready queue |
| KernelRuntime.UnwokenSleeps | kernel/src/multitask/async_rt.rs:166-178 | a task that nobody woke since its poll began is put to sleep |
| KernelRuntime.WakeLeadsToPoll | kernel/src/multitask/async_rt.rs:102-202 | a woken task is polled again by steps of the kernel thread and of callers under way, however many are queued before it |
| KernelRuntime.SpawnLeadsToPoll | kernel/src/multitask/async_rt.rs:143-247 | so is a spawned one |
| KernelRuntime.IdleSleeps | kernel/src/multitask/async_rt.rs:179-200 | with nothing ready the kernel thread goes to sleep and gives up the lock |
| KernelRuntime.SleepsUntilWoken | kernel/src/multitask/thread.rs:241-263 | a sleeping kernel thread takes no step and is made runnable by nothing but a wake of the kernel thread |
| KernelRuntime.FinishIsFinal | kernel/src/multitask/async_rt.rs:163-178 | a finished task is never queued or polled again |
| KernelRuntime.History | kernel/src/multitask/async_rt.rs:102-247 | over every run: one task for each spawn, one wake of the kernel thread for each task queued from outside |
| KernelRuntime.PreemptPauses | kernel/src/multitask/thread.rs:321-366 | a preempted kernel thread takes no step until resumed, and then stands where it stood |
| KernelRuntime.NoLostWakeup | kernel/src/multitask/thread.rs:241-263 | with tasks ready the kernel thread runs, is queued to run, or is about to be woken by a caller that still owes it |
| KernelRuntime.LockIsReturned | kernel/src/multitask/thread.rs:321-366 | the runtime's lock, held across the switch, is dropped by the yield hook |
| BlockOn.InvStep | kernel/src/multitask/async_rt.rs:278-373 | every step of thread and wakers keeps the handshake's invariant |
| BlockOn.NoLostWakeup | kernel/src/multitask/async_rt.rs:330-372 | a wake after the poll began is never slept through |
| BlockOn.History | kernel/src/multitask/async_rt.rs:278-373 | over every run: a wake is outstanding exactly if one came after the last poll began, the thread has finished exactly if its future has, and each waker owes one wake of the thread |
| BlockOn.WakeLeadsToPoll | kernel/src/multitask/async_rt.rs:330-372 | after a wake the future is polled again within six steps |
| BlockOn.SleepsUnlessWoken | kernel/src/multitask/async_rt.rs:330-372 | without a wake the thread sleeps after a pending poll and gives up the lock |
| BlockOn.ThreadMoves | kernel/src/multitask/thread.rs:254-263 | only preemption and its own going to sleep take the processor from the thread, only a wake ends its sleep, only the scheduler lets it run |
| BlockOn.PreemptPauses | kernel/src/multitask/thread.rs:321-366 | a preempted thread takes no step until resumed, and then stands where it stood |
| SharedPointer.InvStep | library/try_alloc/src/rc.rs:547-588 | every atomic step keeps both counters in agreement with the handles and calls in flight |
| SharedPointer.DroppedOnceFreedOnce | library/try_alloc/src/rc.rs:361-377 | the value is dropped at most once, the memory freed at most once and only afterwards |
| SharedPointer.NothingAfterFree | library/try_alloc/src/rc.rs:460-545 | no call that can still take a step finds the memory freed |
| SharedPointer.StrongSeesValue | library/try_alloc/src/rc.rs:497-513 | an upgrade succeeds exactly while the value is undropped |
| SharedPointer.NoResurrection | library/try_alloc/src/rc.rs:548-568 | once the strong count is zero it stays zero |
| SharedPointer.NothingLeaks | library/try_alloc/src/rc.rs:460-545 | when no call can take a step, the value has been dropped and the memory freed |
| SharedPointer.HandlesCounted | library/try_alloc/src/rc.rs:460-588 | over every run: strong handles are the first one plus clones and successful upgrades less drops, weak ones clones and downgrades less drops |
| SharedPointer.AnyNumber | library/try_alloc/src/rc.rs:460-545 | any numbers of strong and weak handles can come to be by cloning and downgrading |
| SharedPointer.EveryOrderEnds | library/try_alloc/src/rc.rs:460-545 | dropping handles and finishing calls uses up a measure in whatever order it is done |
| SharedPointer.AllGivenBack | library/try_alloc/src/rc.rs:460-545 | from every reachable state the handles can be dropped and the calls finished, and then nothing more can happen, the value has been dropped exactly once and the memory freed exactly once |
| SlabGeometry.BucketIndex | library/heap/src/lib.rs:175-181 | the smallest class that is large enough, or none |
| SlabGeometry.CountFills | library/heap/src/lib.rs:21-23 | for every class the counted blocks fill the page after the header exactly |
| SlabGeometry.BlockRouting | library/heap/src/lib.rs:123-139 | a block is never page-aligned, and masking its address gives its page |
| SlabGeometry.BlocksApart | library/heap/src/lib.rs:95-102 | blocks of a page do not overlap |
| SlabGeometry.BlockAligned | library/heap/src/lib.rs:95-102 | a block is aligned to every power of two its class can serve |
| SlabHeap.LiveApart | library/heap/src/lib.rs:65-173 | no two live allocations overlap |
| SlabHeap.LiveGood | library/heap/src/lib.rs:65-173 | each live allocation is large enough, aligned, clear of all page headers, and the page-aligned test tells how it was made |
| SlabHeap.Heap.ThreadBlocks | library/heap/src/lib.rs:93-102 | the init loop threads exactly the counted blocks onto the free list |
| SlabHeap.Heap.AddPage | library/heap/src/lib.rs:82-103 | a fresh page becomes the bucket's only page, all of its counted blocks free, header, list and count in agreement |
| SlabHeap.Heap.TakeBlock | library/heap/src/lib.rs:106-120 | takes the first free block of the first page of the list, which is of that class; a page that becomes full leaves its list; no other page changes |
| SlabHeap.Heap.Allocate | library/heap/src/lib.rs:65-121 | fails exactly when the provider gives nothing and the request is large or no page of its class has a free block, changing nothing; with such a page it takes the first free block of one and no page from the provider, else it takes the offered memory; adds one live allocation at an address not in use and keeps the heap valid |
| SlabHeap.Heap.RoomListed | library/heap/src/lib.rs:81-82 | a bucket is empty exactly when no page of its class has a free block |
| SlabHeap.Heap.PutBlock | library/heap/src/lib.rs:141-155 | returns a block to its page; a page with its first free block joins its list |
| SlabHeap.Heap.RemovePage | library/heap/src/lib.rs:157-168 | takes an unused page out of its doubly linked list, wherever it stands |
| SlabHeap.Heap.Deallocate | library/heap/src/lib.rs:123-173 | removes exactly that allocation; returns a page to the provider exactly when its last live block is freed, and large memory with its rounded size |
| SlabHeap.ListsChanged | library/heap/src/lib.rs:106-168 | a page is on its bucket's well-formed list exactly when it has a free block, whatever page comes or goes |
| FatVolume.EntryReadBack | library/filesystem/src/fs/fat32.rs:896-901 | an entry written into a table block is the one read back, and no other entry of the block changes |
| FatVolume.Volume.GetNextCluster | library/filesystem/src/fs/fat32.rs:750-768 | reads the table entry of the cluster |
| FatVolume.Volume.UpdateCluster | library/filesystem/src/fs/fat32.rs:878-914 | changes exactly that entry, in every copy of the table, and no cluster's data |
| FatVolume.Volume.FindAvailableCluster | library/filesystem/src/fs/fat32.rs:774-862 | without a summary, with a count of zero or with a free cluster it ends: it fails exactly when the count is zero or no cluster is free, else takes the first free entry in search order, marks it as end of chain in every copy, and lowers the count |
| FatVolume.SearchEnds | library/filesystem/src/fs/fat32.rs:796-837 | with a summary of non-zero count the search ends if and only if some cluster is free |
| FatVolume.NeverFinds | library/filesystem/src/fs/fat32.rs:798-804 | on a full volume with such a summary no number of rounds ends the search |
| FatVolume.Volume.FreeCluster | library/filesystem/src/fs/fat32.rs:865-875 | marks the cluster free and raises the 32-bit count, which stays accurate if it was |
| FatVolume.ClustersApart | library/filesystem/src/fs/fat32.rs:742-747 | clusters do not share sectors |
| FatVolume.Volume.ReadCluster | library/filesystem/src/fs/fat32.rs:1672-1680 | reads the sectors of the cluster |
| FatVolume.Volume.WriteCluster | library/filesystem/src/fs/fat32.rs:1841-1849 | changes exactly that cluster, and no table |
| FatFile.TakeSectors | library/filesystem/src/fs/fat32.rs:1682-1721 | the sector loop copies exactly the wanted part of a cluster |
| FatFile.PutSectors | library/filesystem/src/fs/fat32.rs:1800-1839 | the sector loop replaces exactly the bytes at the cursor, as many as fit |
| FatFile.Handle.MovePointer | library/filesystem/src/fs/fat32.rs:1606-1616 | the cursor goes to the position but not beyond the end |
| FatFile.ReadChain | library/filesystem/src/fs/fat32.rs:1644-1724 | following the chain collects exactly the bytes of the file from the cursor on |
| FatFile.Handle.Read | library/filesystem/src/fs/fat32.rs:1628-1728 | reads the file's bytes from the cursor, as many as asked for or left, and advances it |
| FatWrite.OverwriteChain | library/filesystem/src/fs/fat32.rs:1776-1853 | writes over the clusters there are, and stops at the end of the chain |
| FatWrite.AppendCluster | library/filesystem/src/fs/fat32.rs:1856-1926 | hangs a free cluster at the end of the chain and writes into it, exactly when one is available, which then is one fewer |
| FatWrite.ChainExtended | library/filesystem/src/fs/fat32.rs:1857-1871 | the longer chain is linked, ends properly and visits no cluster twice |
| FatWrite.OtherChain | library/filesystem/src/fs/fat32.rs:1857-1871 | every other chain stays as it was and disjoint |
| FatWrite.Write | library/filesystem/src/fs/fat32.rs:1730-1936 | fails with a full disk exactly when the write ends beyond what chain and available clusters can hold; a successful write replaces exactly the bytes at the cursor, extending the file if need be; after a full disk everything that fits is written, the cursor is at that end, the size is as before, and the handle is in order only if no cluster was available and the file filled its last one; other files keep chains and bytes, table copies stay equal |
| FatWrite.WriteThenRead | library/filesystem/src/fs/fat32.rs:1606-1936 | writing, going back and reading gives what was written, whenever there was room for it |
| FatWrite.DiskFullStrands | library/filesystem/src/fs/fat32.rs:1642-1936 | a 100-byte file on a volume of one cluster: writing 500 bytes at its end fails and leaves the cursor at 512, beyond the size |
| ClusterCount.CountIsBest | library/filesystem/src/fs/fat32.rs:2016-2052 | clusters are reported exactly when one fits beside two tables for three entries; then reserved sectors, two tables for count + 2 entries, clusters and reported rest make up the device but for 0 or 2 sectors, and one more cluster would not fit |
| ClusterCount.OverflowsEarly | library/filesystem/src/fs/fat32.rs:2028-2049 | some product or sum exceeds 64 bits exactly when the sectors per group or the virtual sector count do |
| MemoryMap.SortByBase | bootloader/src/memory.rs:24-24 | a sorted permutation of the regions |
| MemoryMap.MarkReserved | bootloader/src/memory.rs:27-30 | every kind but usable becomes reserved, nothing else changes |
| MemoryMap.ShiftTightens | bootloader/src/memory.rs:45-52 | moving a region behind a reserved one loses no reserved address and gains no usable one, even when bases have got out of order |
| MemoryMap.ShrinkTightens | bootloader/src/memory.rs:54-55 | shortening a usable region changes no reserved address and gains no usable one |
| MemoryMap.ResolveOverlaps | bootloader/src/memory.rs:33-56 | a pass keeps reserved coverage, gains no usable address, and either some base has grown or the map is disjoint; a tame map is trimmed exactly to the next start and the reserved end before |
| MemoryMap.RemoveEmpty | bootloader/src/memory.rs:64-71 | keeps exactly the non-empty regions, in order |
| MemoryMap.Disentangle | bootloader/src/memory.rs:32-79 | the loop ends on every map, with sorted, disjoint, non-empty regions; of a tame map they cover what one pass leaves |
| MemoryMap.MergeTouching | bootloader/src/memory.rs:81-105 | no two touching regions of one kind are left, coverage of each kind unchanged |
| MemoryMap.Normalize | bootloader/src/memory.rs:22-108 | sorted, disjoint, non-empty regions with no touching neighbours of one kind; reserved coverage is exactly the input's non-usable coverage, usable coverage lies in the input's usable coverage outside it; of a tame map an address stays usable if and only if nobody withholds it and the last region to begin before it is usable and reaches it |
| MemoryMap.TrimmedCovers | bootloader/src/memory.rs:33-56 | what a pass over a tame map leaves usable |
| MemoryMap.KeepsAll | bootloader/src/memory.rs:54-55 | a tame map loses no usable address if and only if no region begins inside a usable one and ends before it with no other region beginning in time |
| MemoryMap.NoOverlaps | bootloader/src/memory.rs:33-56 | non-empty regions that do not overlap are tame and lose nothing |
| MemoryMap.TailLost | bootloader/src/memory.rs:54-55 | a usable region with a reserved one inside it: everything behind the reserved one is lost |

## Left out

- RBTreeMap.RBTreeMap.Delete: nothing is said when the sentinel's parent link is left over from an earlier deletion and does not name the right node.
- The uninitialised red-black map (`const_new`, `init`), `get_mut`, and lookups by a borrowed form of the key.
- Freeing of whole user page tables (`release_user_page_table`), huge pages, permission bits beyond being written, cache flushes, and the temporary window through which physical memory is reached; a frame is accessed directly.
- Allocation at an address chosen by the caller, and requests for no page or for more pages than the 48-bit space has.
- Several address spaces that share kernel tables: one tree of tables is modelled.
- Memory regions whose base is not a multiple of 4 KiB.
- `write_page_table_memory_bytes`, which only differs from the copying write in its source.
- Weak memory orderings: all atomic operations are sequentially consistent.
- Polling a semaphore future again after it is ready, and replacing the task waker between polls.
- `try_recv` reporting the sender lost: permits and state are looked at in separate steps, so an item can arrive in between.
- Wake-ups of the channel's two ends.
- Counter overflow of the reference counts; the non-atomic `Rc` variant.
- Oneshot: the mutex and condition variable appear as one-step operations with one waiter each; their own protocols are modelled separately.
- Killing threads, the thread switch itself, and a second processor resuming the kernel thread before its yield hook has run.
- The kernel heap's page provider, alignments above 4096, and `realloc`.
- FAT32 directories, file creation and removal, the directory entry that records a new size, and the bytes of the FSInfo sector.
- Files without a start cluster: `write` of a byte to one runs into an assertion (library/filesystem/src/fs/fat32.rs:1863).
- FatVolume.SearchEnds: hints beyond the table, where the second sweep reads past its end.
- The bytes of blocks beyond the sector size, and FAT32 volumes with more than two tables.
- MemoryMap.Normalize: on maps that are not tame usable coverage is bounded from above only (with equal bases the outcome depends on the order that the unstable sort gives them).
- Other parts of the kernel (hash map, block devices, ELF loading, shell, interrupts): plumbing, or easier than what is here.
