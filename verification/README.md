# Verification of the amaterasu kernel's memory, scheduling and disk protocol

Amaterasu is an x86-64 kernel written in C. This project models its memory management
(the page-frame allocator, the kernel heap, address spaces and fork), its round-robin
scheduler and its ATA request protocol in Dafny, and proves what they promise for every
input and every run. `dafny verify dfyconfig.toml` checks all of it.

The C code works in place, so the model does too. Every object or table the kernel
updates is a class or an array, each function that updates it is a method, and the
method is proved against an operation on values; lemmas say what those operations mean.

| file | what it models |
|---|---|
| `Util.dfy` | `pow`, `log2`, `memcpy` |
| `Buddy.dfy`, `BuddyRuns.dfy` | the buddy system on values: what free lists must hold, allocation, release, whole runs |
| `PageFrames.dfy` | `physicalMemory.c` on its arrays and links |
| `KHeap.dfy`, `KHeapProofs.dfy`, `KHeapGuard.dfy` | the operations of `kHeap.c` taken literally, and when they are right |
| `KernelHeap.dfy` | `kHeap.c` on its arrays |
| `Lists.dfy` | `list.c`, `queue.c` |
| `RoundRobin.dfy`, `Scheduler.dfy` | the scheduling policy on values; `scheduler.c` on the process list |
| `AtaQueue.dfy`, `AtaProtocol.dfy`, `AtaDriver.dfy` | the request ring, the protocol as a transition system, `ata.c` itself |
| `AtaProgress.dfy` | the protocol under the round-robin scheduler: how long a request waits |
| `Memory.dfy`, `Paging.dfy`, `PageTables.dfy` | words and bit fields in bytes, the 4-level walk, the tables built entry by entry |
| `AddressSpaces.dfy`, `Fork.dfy`, `ForkRuns.dfy` | isolation of processes, fork over the allocator, runs of forks and stores |

## How to read it

A buddy allocator's free lists are right when they are *canonical*: they hold exactly the
maximal naturally aligned free runs, each once. This description does not mention any
algorithm; the free set alone determines it. `BuddySystemInit` is proved to reach it by
its greedy scan, `AllocatePageFrames` and `kmalloc` to keep it by splitting, and `kfree`
to restore it by merging. Completeness of allocation, disjointness of grants and the
return to one block all follow from it.

An address space is judged by what `CalcPhyAddr` answers on the bytes the builder wrote,
for every 64-bit address. Fork is judged by what user mode can read: any run of forks and
user stores on the shared physical memory behaves as if each process had its own pages.

The ATA protocol is a transition system whose steps are the stretches of kernel code
between two process switches. The gates are interrupt gates (`interrupt.c:34`), so such a
stretch is never interrupted. Safety is proved for any choice of the next process, the
bound on a request's wait for the round robin's choice.

## Where code and documentation disagree

`doc/BuddyMemoryAllocation.md:31` merges with a buddy that is in the free list of the
same order. `kfree` (`kHeap.c:96`) tests only that the buddy's first block is not
allocated. The buddy may then be a smaller free block, or split, or stand behind the front
of its list, which deletion cannot handle because `AddTokHeapOrder` never links the old
front back. The model keeps the code's test. `KHeapGuard.KfreeKeepsHeapIff` proves that a
`kfree` is right exactly when each buddy it meets is allocated or heads the list of its
order, `KHeapGuard.GuardCanFail` reaches a state of the kernel's 16-block heap where it is
not, by three requests and one `kfree`, and
`KHeapProofs.LifoLeavesNoTrace` shows that frees in last-in first-out order always are.

`AllocatePageFrames` returns 0 for a refusal and for page 0.
`BuddyRuns.ZeroMeansRefusedIff` gives the exact condition for a caller to read 0 as
a refusal: page 0 must be reserved. Fork assumes that.

## Model

| member | source | states |
|---|---|---|
| `Util.Pow` | util.c:26-36 | x^n modulo 2^64 for every x and n, although the intermediate squares wrap |
| `Util.Log2` | util.c:38-45 | the floor of the binary logarithm of every x >= 1 |
| `Util.RequestedOrder` | physicalMemory.c:72-75 | rounding log2 up by one comparison with pow gives the least order whose block holds n units |
| `Util.CeilLog2Least` | kHeap.c:45-48 | no smaller order than the one requested would hold the request |
| `Util.BitSetMeans` | physicalMemory.c:29 | the bit test of the alignment scan is the parity of the number shifted right |
| `Util.FlipBelow` | kHeap.c:91 | the buddy of a block inside the heap is inside the heap |
| `Util.FlipBits` | kHeap.c:91 | the buddy differs from the block in just the bit of the order |
| `Util.CopySourceStep` | util.c:47-51 | which source byte a forward copy leaves at place i: the i-th, unless an earlier step of the copy has overwritten that |
| `Util.Memcpy` | util.c:47-51 | every target byte, for overlapping ranges too: copying forward repeats the bytes before an overlapping target; nothing else changes |
| `Buddy.AlignedMeans` | physicalMemory.c:28-37 | alignment by low bits is divisibility by the block size |
| `Buddy.MaximalDisjoint` | physicalMemory.c:26-58 | two different maximal aligned free runs never share a page |
| `Buddy.MaximalAbove` | physicalMemory.c:81-107 | completeness: every aligned free run lies inside a maximal one, so a search from its order upward finds a block |
| `Buddy.CanonicalPartition` | physicalMemory.c:26-58 | blocks listed in canonical form are aligned, pairwise disjoint, and cover exactly the free units |
| `Buddy.CanonicalIffNoFreeBuddies` | doc/BuddyMemoryAllocation.md:28-32 | disjoint blocks are a partition of the free units without two free buddies if and only if they are the maximal aligned free runs, which the free set alone determines |
| `Buddy.SplitCanonical` | physicalMemory.c:86-99 | splitting a block down to any order lists its remainder canonically |
| `Buddy.AllocateCorrect` | physicalMemory.c:71-108 | refused if and only if the order is too large or no aligned free run of that order exists; otherwise the front of the smallest block that holds one is taken, exactly that run leaves the free units and every invariant stays |
| `BuddyRuns.ServeCorrect` | physicalMemory.c:71-108 | over any sequence of requests: each grant is an aligned run of at least n and fewer than 2n units no earlier grant touches, each refusal means none was left, and granted plus free units add up |
| `BuddyRuns.GrantsDisjoint` | physicalMemory.c:71-108 | any two grants of one run are disjoint |
| `BuddyRuns.EveryPageComes` | physicalMemory.c:81-104 | repeated requests for single pages reach every free page in the end |
| `BuddyRuns.ZeroMeansRefusedIff` | physicalMemory.c:104-107 | a returned 0 can be read as a refusal in every run if and only if page 0 is not free at the start |
| `BuddyRuns.CoalesceCanonical` | kHeap.c:90-105 | merging upward through buddies that head their lists gives the canonical form of the enlarged free set |
| `BuddyRuns.ReleaseCorrect` | kHeap.c:88-105 | a release under that guard frees exactly the block's units and keeps partition and canonical form |
| `BuddyRuns.AllFreeIsOneBlock` | doc/BuddyMemoryAllocation.md:28-32 | with nothing live the lists hold one block of the top order and nothing else |
| `BuddyRuns.CoalesceUndoesSplit` | kHeap.c:53-63 | merging the front piece of a split block gives back every list the split changed, in order |
| `BuddyRuns.ReleaseUndoesAllocate` | kHeap.c:38-106 | releasing the block just allocated restores the lists and the live blocks exactly, and the condition for it survives allocation |
| `PageFrames.SpellsPrepended` | physicalMemory.c:142-152 | the links after an insertion spell out the old list with the page in front |
| `PageFrames.SpellsUnlinked` | physicalMemory.c:154-170 | the links after removing a member at any position spell out the list without it |
| `PageFrames.StreakIsMaximal` | physicalMemory.c:26-53 | the block the greedy scan cuts is a maximal aligned free run of the whole page map |
| `PageFrames.ScanBlock` | physicalMemory.c:55-58 | listing that block and stepping over it keeps: listed are just the maximal runs behind the scan, and none straddles it |
| `PageFrames.ScanComplete` | physicalMemory.c:18-59 | a scan past the last free page has listed the canonical form |
| `PageFrames.PageFrameAllocator.constructor` | physicalMemory.c:62-69 | from any page map: a valid allocator whose usable pages are the non-reserved ones, nothing live |
| `PageFrames.PageFrameAllocator.AddToPageFrameOrder` | physicalMemory.c:142-152 | prepends to the one list; every other list, all flags and all pages outside that list stay as they are |
| `PageFrames.PageFrameAllocator.DeleteFromPageFrameOrder` | physicalMemory.c:154-170 | removes just the given member, at any position, and clears its links; pages outside that list stay as they are |
| `PageFrames.PageFrameAllocator.BuddySystemInit` | physicalMemory.c:10-60 | terminates for every page map; the lists are the canonical partition of the non-reserved pages, highest block first; isTop is set at the block starts and no other flag changes |
| `PageFrames.PageFrameAllocator.NextFree` | physicalMemory.c:19-24 | stops at the first non-reserved page or the end, skipping no free page |
| `PageFrames.PageFrameAllocator.AlignmentOrder` | physicalMemory.c:27-37 | the lowest set bit, or the top order if there is none up to it |
| `PageFrames.PageFrameAllocator.StreakEnd` | physicalMemory.c:40-50 | the longest free run from start, cut off at the alignment |
| `PageFrames.PageFrameAllocator.BlockOrder` | physicalMemory.c:26-53 | the order with which the block at start is maximal |
| `PageFrames.PageFrameAllocator.FindOrder` | physicalMemory.c:81-84 | the least order from the requested one up with a free block |
| `PageFrames.PageFrameAllocator.SplitFront` | physicalMemory.c:86-99 | the pointer-level split loop leaves the lists the value-level split leaves |
| `PageFrames.PageFrameAllocator.Grant` | physicalMemory.c:86-104 | splitting, marking and unlinking is one allocation of the buddy system |
| `PageFrames.RequestMeans` | physicalMemory.c:72-79 | the order computed from a positive int asks for a block of at least n and fewer than 2n pages, and the one computed from a negative int for more than there is |
| `PageFrames.PageFrameAllocator.AllocatePageFrames` | physicalMemory.c:71-108 | for n >= 1 pages: a grant is an aligned run of at least n and fewer than 2n pages that was wholly free, and only it becomes live; a refusal means n exceeds the top block or no such run is free. Every negative n is refused. A refusal changes nothing, a grant flags only its first page, all invariants stay; with page 0 reserved 0 means refused |
| `KHeap.RepresentsUnique` | kHeap.c:13-17 | the free lists and the live blocks determine every list head and every block field |
| `KHeap.RepresentsAdd` | kHeap.c:108-117 | insertion pushes on the one list although the old front is never linked back |
| `KHeap.RepresentsDelete` | kHeap.c:119-140 | deleting the front of a list drops it and resets its block |
| `KHeap.DeleteRelinks` | kHeap.c:119-140 | for any block and order: its neighbours are linked to each other, or the head to its successor, its own fields reset, all other blocks kept |
| `KHeapProofs.CutRefines` | kHeap.c:53-63 | the split loop touches only blocks that exist and leaves the state of the value-level split |
| `KHeapProofs.KmallocRefines` | kHeap.c:38-75 | kmalloc is the buddy system's allocation of the least order that holds the size, and keeps a well-formed heap |
| `KHeapProofs.MergeRefines` | kHeap.c:90-105 | under the guard the literal merge loop is coalescing |
| `KHeapProofs.KfreeRefines` | kHeap.c:77-106 | under the guard kfree is the buddy system's release |
| `KHeapProofs.InitialWellFormed` | kHeap.c:19-36 | what kHeapInit sets up is a well-formed heap with nothing live |
| `KHeapProofs.KfreeUndoesKmalloc` | kHeap.c:38-106 | kfree of what kmalloc just returned, address or 0, restores every head, order and field, with no guard |
| `KHeapProofs.LifoLeavesNoTrace` | kHeap.c:38-106 | after any run of requests and last-in first-out frees from kHeapInit the heap is, field by field, as if the freed requests had never been made |
| `KHeapGuard.CanMergeIsGuard` | kHeap.c:93-98 | the condition read off the arrays says that every absorbed buddy is a free block heading the list of its order |
| `KHeapGuard.FrontLost` | kHeap.c:100-104 | absorbing a buddy from behind the front of its list leaves no heap in canonical form: the old front, still a maximal free run, is listed nowhere |
| `KHeapGuard.GuardForced` | kHeap.c:90-105 | a heap that comes out right had every absorbed buddy at the front of its list |
| `KHeapGuard.KfreeKeepsHeapIff` | kHeap.c:77-106 | kfree of a live block leaves a well-formed heap with just that block released if and only if each buddy the loop meets is allocated or heads the list of its order |
| `KHeapGuard.WellFormedMeans` | kHeap.c:13-17 | isAllocated is set exactly at starts of live ranges, which lie inside the heap and apart; prev is null everywhere |
| `KHeapGuard.KmallocCorrect` | kHeap.c:38-75 | 0 if and only if the size exceeds the heap or no aligned free run holds it, with nothing changed; otherwise a free run of at least size bytes and, above one block, less than twice as many |
| `KHeapGuard.KfreeKeepsWellFormed` | kHeap.c:77-106 | under the condition kfree of any address releases the live block whose 256 bytes the address lies in and no other, and leaves everything as it is if there is none |
| `KHeapGuard.GuardedRuns` | kHeap.c:38-106 | every run of kmalloc and kfree whose frees meet the condition keeps free and live blocks a canonical partition, and once nothing is live the heap is what kHeapInit made |
| `KHeapGuard.GuardCanFail` | kHeap.c:77-106 | wherever the 16-block heap starts, kmalloc(512), two kmalloc(256) and the kfree of the second one's block end in a heap where the condition fails for the first block, and freeing it leaves no well-formed heap without just that block |
| `KernelHeap.HeapAllocator.constructor` | kHeap.c:19-36 | the arrays hold the initial heap, which is well-formed |
| `KernelHeap.HeapAllocator.AddTokHeapOrder` | kHeap.c:108-117 | the arrays after an insertion, other blocks untouched |
| `KernelHeap.HeapAllocator.DeleteFromkHeapOrder` | kHeap.c:119-140 | the arrays after a deletion, through both neighbours if present |
| `KernelHeap.HeapAllocator.FindOrder` | kHeap.c:51-52 | the least order from the requested one up whose list has a front |
| `KernelHeap.HeapAllocator.SplitFront` | kHeap.c:53-63 | the loop in place performs the value-level split loop |
| `KernelHeap.HeapAllocator.MergeBuddies` | kHeap.c:90-105 | the loop in place performs the value-level merge loop, guard or not |
| `KernelHeap.HeapAllocator.Kmalloc` | kHeap.c:38-75 | in place, refused exactly when the buddy system refuses, otherwise its block's address; the heap stays well-formed |
| `KernelHeap.HeapAllocator.Kfree` | kHeap.c:77-106 | in place for any address whatever; under the condition the heap stays well-formed, with just the live block released whose 256 bytes the address lies in, and unchanged if there is none |
| `Lists.ListAdd` | list.c:10-18 | inserts right after the given node of the circle, all links of the result correct |
| `Lists.ListDelete` | list.c:20-26 | removes the given node of a circle of at least two; the node keeps its own pointers |
| `Lists.CircleDetermines` | list.c:10-26 | the order of a circle determines every pointer in it |
| `Lists.AddThenDelete` | list.c:10-26 | deleting what was just added restores every pointer |
| `Lists.Queue.constructor` | include/queue.h:13-17 | an empty queue whose guard is a circle of one |
| `Lists.Queue.QueueFront` | include/queue.h:19-21 | the oldest entry, null for an empty queue |
| `Lists.Queue.QueuePush` | queue.c:4-8 | appends; size is the number of linked entries |
| `Lists.Queue.QueuePop` | queue.c:10-17 | drops the oldest; in every run what was pushed is what was popped followed by what is queued |
| `RoundRobin.NextUnique` | scheduler.c:27-37 | the nearest RUNNING process is unique, and is the current one if and only if no other is RUNNING |
| `RoundRobin.IsNextMeans` | scheduler.c:27-37 | the next process is the RUNNING one with none RUNNING strictly between it and the current one, going round |
| `RoundRobin.StepApproaches` | scheduler.c:43-50 | a scheduling event that passes a RUNNING process over brings it nearer; a fork pushes it back by one |
| `RoundRobin.BoundedWaiting` | scheduler.c:43-50 | a process RUNNING at distance d becomes current within d + f calls of Schedule, f forks in between, whatever sleeps, exits and wakeups happen |
| `RoundRobin.StaysOut` | scheduler.c:27-37 | over every run of events, a process that is neither RUNNING nor current never becomes current unless it is woken |
| `RoundRobin.LeavingIsFinal` | process.c:331-334 | an exit leaves ZOMBIE and a sleep SLEEP in the state of the process that was current and of no other, and over every run after it that process never becomes current again unless it is woken |
| `Scheduler.ProcessTable.constructor` | process.c:381-389 | one RUNNING process linked to the guard |
| `Scheduler.ProcessTable.FindNextTask` | scheduler.c:27-37 | terminates if some listed process is RUNNING and returns the first such in list order after p, round the guard; p itself only if no other is RUNNING |
| `Scheduler.ProcessTable.Schedule` | scheduler.c:43-50 | makes the first RUNNING process after the current one in circular order current; list order and every process state stay as they are |
| `Scheduler.ProcessTable.Sleep` | scheduler.c:92-95 | the current process is SLEEP afterwards, no other state changes, and the first RUNNING process after it becomes current |
| `Scheduler.ProcessTable.SysExit` | process.c:331-334 | the current process is ZOMBIE afterwards, no other state changes, and the first RUNNING process after it becomes current |
| `Scheduler.ProcessTable.Wakeup` | scheduler.c:100 | the given process is RUNNING afterwards; no other state changes, nor the list, nor who is current |
| `Scheduler.ProcessTable.Fork` | process.c:219-223 | the child, in its parent's state, goes in right behind the parent; nobody else moves or changes state |
| `AtaQueue.PushAppends` | ata.c:233-254 | appends at any wrap position, or is refused if and only if ten requests are pending; the index is the new request's slot |
| `AtaQueue.PopDrops` | ata.c:265-272 | drops the oldest request, which is the front; an empty ring stays as it is |
| `AtaQueue.RingIsFifo` | ata.c:233-272 | every interleaving of pushes and pops, wrapping any number of times, is a FIFO bounded by ten |
| `AtaQueue.RequestQueue.Push` | ata.c:233-254 | the ring operation of PushAppends, in place: one slot and the size change |
| `AtaQueue.RequestQueue.Pop` | ata.c:265-272 | the ring operation of PopDrops, in place: no slot changes |
| `AtaQueue.RequestQueue.Front` | ata.c:256-258 | the oldest pending request; on an empty ring the entry at the head index |
| `AtaQueue.ReadData` | ata.c:179-188 | each word read lies in the buffer low byte first, an odd last byte is the low byte of its word; no byte outside the sizeOfBytes bytes of the buffer changes |
| `AtaProtocol.ResumerOwnsFront` | ata.c:160-174 | a process that returns from sleep owns the front request, whose command has completed |
| `AtaProtocol.ReadKeeps` | ata.c:148-161 | a new request keeps the protocol invariant, sent at once only if it is alone |
| `AtaProtocol.InterruptKeeps` | ata.c:80-86 | the interrupt wakes the sleeping owner of the oldest request and changes no other process's state, nor the ring |
| `AtaProtocol.ResumeKeeps` | ata.c:174-199 | the data read is the owner's and lands in the owner's buffer; the next request, if any, is sent |
| `AtaProtocol.RunKeeps` | ata.c:80-200 | every interleaving of requests, interrupts, resumptions, switches, exits and forks keeps the invariant |
| `AtaProtocol.ProtocolSafe` | ata.c:80-200 | in every run from ATAInit: at most one command, that of the head; every sleeper owns a queued request and cannot be left without a pending interrupt or an awake head; deliveries and wakeups in push order |
| `AtaProtocol.DeadStaysDead` | ata.c:80-86 | in every run of the protocol a ZOMBIE stays ZOMBIE and is never current: no interrupt wakes it |
| `AtaProtocol.ExitIsFinal` | process.c:331-334 | in every run after an exit the process that exited is ZOMBIE and not current |
| `AtaDriver.Driver.constructor` | ata.c:38-40 | a driver in the initial state of the protocol |
| `AtaDriver.Driver.BeginATARead` | ata.c:148-164 | performs the protocol's read step up to sleep: -1, with nothing changed, if and only if ten requests were pending; otherwise the request is appended, sent at once only if it is alone, and its process sleeps |
| `AtaDriver.Driver.ATAHandler` | ata.c:80-86 | performs the protocol's interrupt step: the front request's command is done and its process RUNNING; queue, other states and current process stay |
| `AtaDriver.Driver.FinishATARead` | ata.c:166-200 | performs the protocol's resume step and returns the size asked for: the front request is marked complete and dropped, the next one sent, and the process's buffer holds the words of its sectors, 256 a sector, low byte first; no other byte of memory changes |
| `AtaProgress.StepFollows` | scheduler.c:27-50 | every step of the protocol is one step of the round robin or none: the process states, the list order and the current process go together through sleeps, wakeups, exits and forks |
| `AtaProgress.WaitStep` | ata.c:80-86 | while an answer waits for its owner, a call of Schedule brings the owner nearer by one, a fork puts it back by one, and no other request overtakes |
| `AtaProgress.WokenComesBack` | scheduler.c:92-100 | once woken, the owner returns from its read within d + f calls of Schedule, d its distance on the list, f the forks meanwhile |
| `AtaProgress.DeliveredInTurn` | ata.c:148-200 | a request with j ahead of it is delivered, to its owner and buffer, by exactly the j + 1st return from a read, and interrupts and returns alternate |
| `AtaProgress.DeliveredInTime` | ata.c:148-200 | a request with j ahead of it has been delivered after any run of j + 1 rounds in each of which the disk answers and Schedule is then called more often than there are processes and forks |
| `Memory.Store` | process.c:353 | eight bytes hold the word, read back unchanged; no other byte changes |
| `Memory.LoadBytes` | process.c:353 | a word is read from its eight bytes, lowest first |
| `Memory.SetMeans` | include/paging.h:9-107 | assigning a bit field changes that field, cut to its width, and no bit above or below |
| `Memory.Assign` | include/paging.h:9-107 | the word after one field assignment: the bits up to the field's end, and the bits above unchanged |
| `Memory.Put` | include/paging.h:9-107 | the same where the bits above are still to be assigned |
| `Paging.IndicesSpell` | include/paging.h:4-7 | the four indices and the page offset spell the low 48 bits of an address |
| `Paging.FieldsLie` | include/paging.h:9-107 | where the fields of an entry that the walk reads lie in its word |
| `Paging.PointerLies` | paging.c:78-105 | the table an entry points to is its bits 12 to 39 |
| `Paging.WalkMeaning` | paging.c:58-132 | on any tables: the canonical range is exact, a not-present answer names the first level whose entry has a clear present bit, and a mapped address is the frame of the last entry read, cut to the size of its page, at the address's own offset |
| `Paging.PointerRoundTrip` | paging.c:78-105 | a page-aligned table address comes back from an entry if and only if it lies below 2^40 |
| `Paging.TranslatesMeans` | paging.c:58-132 | on any tables an address is mapped if and only if it is canonical and every entry on its way is present |
| `Paging.BuiltMeaning` | paging.c:58-132 | for every 64-bit address: the identity on the first five gigabytes, the last two pages to the text and stack frames, nothing else mapped; user mode reaches exactly the last two pages, and can write them; no mapped address is read-only or barred from fetching |
| `Paging.LargePageMeaning` | paging.c:98-115 | a 2 MB leaf maps its whole region, each address at its offset from the leaf's frame |
| `Paging.PageMovesAsWhole` | paging.c:58-132 | on any tables whatever, two addresses of one 4 KB page fail alike or land in one frame at their own offsets |
| `Paging.LowerHalf` | paging.c:58-97 | the lower canonical half: the identity below five gigabytes, supervisor only |
| `Paging.UpperHalf` | paging.c:98-130 | the upper half: just the two user pages |
| `PageTables.TableEntry` | process.c:152-177 | the twelve field assignments leave an entry with P, R/W, the given U/S and the given frame, and every other bit clear, whatever the word held before |
| `PageTables.LeafEntry` | process.c:69-102 | the same for a 4 KB leaf, which is present, writable and a user page |
| `PageTables.GigabyteLeaf` | process.c:43-58 | the same for a 1 GB leaf, which is present, writable and a supervisor page |
| `PageTables.NotPresentEntry` | process.c:59-61 | clears the present bit and keeps every other bit |
| `PageTables.FillTable` | process.c:42-184 | after the loop the table has the wanted entries and is not present everywhere else; only its frame changed |
| `AddressSpaces.BuiltKeeps` | process.c:37-188 | tables keep their meaning while nothing writes to their frames |
| `AddressSpaces.StoreIsolated` | process.c:190-209 | a store to any address whose entries all allow user mode to write changes that one byte of its process's view, no byte of any other view, and no table |
| `AddressSpaces.JoinSeparate` | process.c:194-206 | a process made of free frames shares none with anybody, nor between its own eight |
| `AddressSpaces.BystanderKeeps` | process.c:190-209 | while only free frames change, every process keeps its tables and all its bytes |
| `AddressSpaces.ForkCopiesAndIsolates` | process.c:190-209 | the child reads the parent's byte at every user address, nobody who existed sees a change, and all frames stay separate |
| `Fork.OnePage` | physicalMemory.c:71-108 | a request for one page takes exactly one free page, and fails only if none is free |
| `Fork.Machine.AllocateFrame` | process.c:38-41 | 0 exactly when no page is free, otherwise a frame that was free and now is not |
| `Fork.Machine.ThreeFrames` | process.c:394-396 | three distinct free frames if three are left, and otherwise what is left, then 0 |
| `Fork.Machine.SetUpPageTable` | process.c:37-188 | 0 if and only if fewer than five pages are free, which are then used up; otherwise five distinct free frames hold a built address space; no other frame changed either way |
| `Fork.Machine.CopyPage` | process.c:202-204 | the target frame holds the source page, no other frame changed |
| `Fork.Machine.CopyProcessMemory` | process.c:190-209 | no page table if and only if fewer than eight pages are free, and then only those pages and page 0 change; otherwise eight distinct free frames hold the three copied pages and the built tables, and no other frame changed |
| `Fork.Machine.DoFork` | process.c:339-363 | with eight free pages a fork of the whole system, whose child reads the parent's bytes and may write where the parent may, and whose kernel stack is the parent's but for a zero rax at the parent's offset; with fewer the child has no page table; whatever happens, no process that existed sees a change |
| `Fork.Machine.FirstMemory` | process.c:391-397 | the first process's eight frames with built tables, or no page table if and only if fewer than eight pages are free |
| `Fork.Machine.ProcessInit` | process.c:381-409 | from free frames to a sound system of one process, if and only if eight pages are free |
| `ForkRuns.Forked` | process.c:190-209 | after a fork the child has its parent's view and every other view is as before |
| `ForkRuns.ForkStep` | process.c:190-209 | on the views a fork just copies the parent's |
| `ForkRuns.StoreStep` | process.c:190-209 | on the views a user store changes one byte of one |
| `ForkRuns.MemoryIsPrivate` | process.c:190-209 | after any run of forks and user stores all frames are separate, all tables stand, and each process sees what it would with a private copy of memory made at its fork |

## Left out

- `PageFrames.PageFrameAllocator.constructor`: has one list head more than `physicalMemory.c:8` declares, because lines 11 and 81 use index PAGE_FRAME_MAX_ORDER; requires the word behind the page map to read as reserved when the last page is, because line 19 tests the flag before the bound; `1 << order` fits an int and there are fewer than 2^59 pages.
- `PageFrames.PageFrameAllocator.AllocatePageFrames`: excludes a request for 0 pages, for which `log2` (`util.c:40`) never returns; negative requests are included.
- `KernelHeap.HeapAllocator.constructor`: takes the page that `AllocatePageFrames` returns as a non-zero parameter; block `id` is the index itself.
- `KernelHeap.HeapAllocator.Kmalloc`: excludes size 0, for which `log2` never returns.
- `Scheduler.ProcessTable.FindNextTask`: requires some listed process to be RUNNING; the C loop never ends otherwise.
- `Scheduler.ProcessTable.Fork`: covers the list and the state; the process structure comes from `new` instead of `kmalloc`.
- `Fork.Machine.DoFork`: covers the path without a shared address space, from a kernel stack pointer inside the parent's stack page, and takes the process structures' `kmalloc` to succeed; a child that gets no page table is described up to its return, not when it is scheduled.
- `AtaDriver.Driver.FinishATARead`: requires the process's buffer to lie in memory and the sectors to exist; the data port yields the words of the sectors the command named, without the 8-bit limit of the sector count register.
- `AtaProgress.DeliveredInTime`: takes the disk's answers as given, since no bound on the disk follows from the code.
- `Fork.Machine.SetUpPageTable`: frames lie below the five gigabytes the kernel maps to themselves; the tables a failing call has already filled are lost, as in the code.
- `AtaProtocol.ProtocolSafe`: polling off, one completion per command and no device error; the error path at `ata.c:174-176` returns without popping the request.
- `Paging.PointerRoundTrip`: `field << 12` keeps the field's 40 bits, as gcc compiles it; physical memory is modelled up to 2^40.
- Pointers into `memoryMap` and `kHeapBlocks` are indices, so pointer arithmetic is arithmetic on indices.
- `FreePageFrames` (`physicalMemory.c:110-140`): nothing calls it, and it departs from the documented merge.
- The KernelThread path of fork with a shared text frame, at `process.c:345-349`.
- Inline assembly and handler.s: register saving, stack switches, cr3 loads; Schedule is its choice of the next process.
- Port I/O, status polling, IDENTIFY, PIC, HPET, ACPI and the keyboard; the disk is a command that completes at some time.
- Uniqueness of process ids, which `scheduler.c:21-25` does not provide; the other fields of the process structures.
- Display, fonts, file system, ELF loading and sysExec: no state worth an invariant.
- GDT, IDT and TSS bit packing.
