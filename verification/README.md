# Domovoy in Dafny

A model of the five stateful parts of Domovoy, a telemetry framework for C++ programs, with
proofs of what they keep over whole runs. On Linux the parts form a pipeline: an isolated
bump allocator, hooks interposed on the C library that record allocations and descriptors in
shared maps, a leak report built from the map, a CPU monitor, and the Init/Shutdown machinery
around them. `dafny verify dfyconfig.toml` checks the project.

| file | what it models |
|---|---|
| `Words.dfy` | 64-bit words as natural numbers with explicit wrap-around, and the alignment mask on binary digits |
| `BlockPool.dfy` | what the isolated allocator computes, as a function on the list of blocks; the invariant over every history; when its unchecked arithmetic is right |
| `MemoryBound.dfy` | how much memory the allocator maps, over every history |
| `IsolatedAllocator.dfy` | the allocator on its heap: linked nodes, in-place bumps, mapping and unmapping; each method computes the function of `BlockPool` |
| `Tracking.dfy` | the hooks as a step machine for any number of threads: real calls and map operations interleave, identifiers are reused at once |
| `AllocationHooks.dfy` | the malloc family of hooks in one thread, against what the C library does |
| `Leftovers.dfy` | a second session, which starts with the map the first one left behind |
| `BootstrapBuffer.dfy` | the static buffer that serves requests while real functions are looked up |
| `InitOnce.dfy` | the one-time initialisation protocol of both hook layers |
| `LeakGroups.dfy`, `HexText.dfy`, `LeakReport.dfy`, `ReportLaws.dfy` | sorting, grouping, the report loop with its captured accumulator, and the laws of the report |
| `Reachability.dfy` | marking of reachable blocks |
| `IoMonitor.dfy` | the descriptor monitor, its hooks and its report |
| `StatLine.dfy`, `CpuMonitor.dfy` | the stat-line parser with the extraction rules of C++ streams, the sweep over the threads, and what captures say about average usage |
| `Lifecycle.dfy` | Init and Shutdown interleaved with the monitor thread |
| `Core.dfy`, `Session.dfy` | the order of Init and Shutdown, and the end-to-end statements from hooked calls to the report |

## How to read the model

- Machine words are natural numbers below 2^64. Every C++ addition, subtraction or product
  that can wrap is wrapped by `Wrap`; nothing is assumed not to wrap unless a condition says so.
- What the kernel, the C library, the clock and `/proc` answer are parameters. `mmap` may fail
  or return any unused page-aligned range of the lower half of the address space; the C library
  may return any unused block or fail; the kernel may hand out a released descriptor at once.
- In the step machines one step is one real call or one access to shared state, and steps are
  totally ordered.
- A heap node is an object that knows the page it lies on. Moving to the next node, computing a
  placement in a node and unmapping it require its page to be mapped, which is how "never read
  after unmapping" is stated for the walk and for the teardown.
- `std::sort` is represented by a reference sort. `AnySortGivesTheReport` shows that any sorted
  permutation is the same list, so nothing depends on the algorithm.
- The type name of a leaked object is an arbitrary function of its address and size.
- Usage above 90% is taken exactly, as `10 * cpu > 9 * time`.

## Where the code falls short, and exactly when

Each of these laws fails for some input of the code as it stands. The model keeps the code's
behaviour, names such an input, and proves the condition under which the law holds, in both
directions.

- A fresh block is bumped without a test that the request fits. It fits on every page the
  kernel may choose if and only if `Holds`: the doubled size plus header stays within 64 bits,
  and the padding one alignment can cost beyond the 32-byte header leaves room
  (`HoldsIsExact`). Up to an alignment of 1 MiB only the first part matters
  (`HoldsUpToAMebibyte`); one byte aligned to 4 MiB overruns (`FreshBlockCanOverrun`).
- The test in the block walk adds in 64 bits. It agrees with exact arithmetic if and only if
  the sum does not land in a window of one block size past 2^64 (`WalkTestIsExactWithoutWrap`);
  every block in use has a request that does (`WalkTestCanWrap`).
- A mapping's length is its payload plus header in 64 bits. A new block is sound if and only if
  that sum does not wrap (`AppendIsSoundExactlyWithoutWrap`); a call of `Initialize` on an empty
  list with 2^64 - 20 maps 12 bytes (`ConfiguredCapacityCanWrap`). Over whole histories the three
  conditions are one: `HistoryIsSoundExactlyWhenServed`.
- `realloc` erases the old address after `real_realloc` has already released it. A run is
  correct throughout if and only if no such erasure hits an address that has an owner again
  (`ErasureIsHarmlessExactlyWhenUnowned`, `CorrectExactlyWhenHarmless`); a two-thread run that
  loses an entry is `MovingReallocationCanLoseAnEntry`.
- A failed `realloc` leaves the old block live and erases its entry. Without interference the
  hook is harmless if and only if `real_realloc` did not fail (`UndisturbedReallocation`), and a
  session's map is its own live blocks if and only if none of them was left by a failure
  (`TrackedExactlyWhenNoneForgotten`, with the input `FailedReallocationHidesALeak`).
- Shutdown does not clear the allocation map. A later session reports as if it had started
  empty if and only if its own calls touched every leftover address
  (`LeftoversShowUnlessTouched`); a block freed between two sessions is reported by the second
  (`FreedBlockIsReported`).
- The details state a size for every group if and only if some leak is not empty: the loop's
  `current_size` starts at 0, so a first group of size 0 never gets its field
  (`SizesStatedUnlessAllEmpty`, with the input `EmptyLeakHasNoSize`).
- The byte total of the summary is exact if and only if the bytes stay below 2^64
  (`SummaryConserves`). Disjoint blocks cannot exceed that (`DisjointBlocksDoNotOverflow`), so
  one session cannot; the leftovers of many can (`LeftoversCanWrapTheTotal`).
- `MarkReachability` stops at the first block a value points into. It marks every block a value
  points into if and only if no address points into two
  (`AllHitsMarkedExactlyWithoutOverlap`, with the input `OverlapHidesAHit`). The end of a block
  is computed in 64 bits: the test is membership if and only if the block ends below 2^64, and
  nothing points into one that does not (`PointsIntoIsMembership`).
- Initialisation can still complete if and only if the thread in the body has not entered
  `EnsureInit` again (`CompletesUnlessStalled`), and spinning threads can get out if and only if
  it can, or none spins (`SpinnersGetOutUnlessStalled`). Lookups that only allocate, and free
  what they allocated, never stall it (`LookupsThatOnlyAllocateNeverStall`); one that frees a
  pointer from elsewhere does (`FreeingInALookupStalls`).
- The bootstrap buffer's test is right if and only if its addition does not wrap
  (`AdmitsIsExactWithoutWrap`, with the inputs `AdmitsCanWrap`), and `calloc`'s zeroing leaves
  the buffer if and only if it does (`BootstrapBuffer.Calloc`).

Where the code and the repository's README disagree, the model follows the code:

- README.md:766-770 describes a reachability analysis over stacks and data segments. Both scans
  are empty in the code (src/memory/memory_analyzer.cpp:162-172), so every tracked block is
  reported. `MarkReachability` has no caller and is modelled on its own.
- README.md:782 gives the monitor a period of 100 ms; the code sleeps 500 ms. No statement here
  depends on the period.
- README.md:788 has hotspots stored and reported at shutdown; the code reports each one at once,
  which is what `Lifecycle` models.
- include/domovoy/core.h:27-28 calls `allocator_capacity_bytes` the initial size of the allocator.
  `Initialize` only acts on an empty list, and Init binds the allocation hooks before it, which
  places their map in the allocator (src/memory/linux_alloc_hooks.cpp:64-66), so the setting has
  no effect (`ConfiguredCapacityHasNoEffect`).
- README.md:658 and README.md:675 show reports under other top-level fields than the code writes.

## Model

| member | source | states |
|---|---|---|
| Words.AlignUpIsLeastMultiple | src/allocator.cpp:113-117 | without a carry out of 64 bits the mask expression is a multiple of the power of two, at or above the address by less than it, and no other multiple lies in between |
| Words.AndHighMask | src/allocator.cpp:114 | masking with the complement of the low k bits removes exactly the remainder modulo 2^k, for every k and word width |
| Words.AlignUpInLowerHalf | src/allocator.cpp:134-137 | for any address in the lower half of the address space the mask never carries, whatever the power of two, and stays in that half |
| BlockPool.BumpIsExact | src/allocator.cpp:112-120 | in a block that satisfies the invariant cursor, padding and aligned start are exact for any power of two, and only the last addition of the request can wrap |
| BlockPool.WalkTestIsExactWithoutWrap | src/allocator.cpp:118 | the fit test is right if and only if the sum does not wrap into the block's size |
| BlockPool.WalkTestCanWrap | src/allocator.cpp:118 | every block in use lets through a request of 2^64 less what is in use, for which it has no room |
| BlockPool.FreshPadding | src/allocator.cpp:133-137 | on a page-aligned block no alignment up to the header size costs padding, and a larger one costs at most itself less the header |
| BlockPool.FreshBlockHolds | src/allocator.cpp:125-139 | a block mapped for an accepted request always has room for padding and request, so the bump without a test keeps used within size |
| BlockPool.HoldsIsExact | src/allocator.cpp:125-139 | for sizes and alignments the kernel can serve at all, the unchecked bump is sound on every page if and only if the condition on size and alignment holds |
| BlockPool.HoldsUpToAMebibyte | src/allocator.cpp:125-126 | up to an alignment of 1 MiB the condition is just that the doubled size and the header stay within 64 bits |
| BlockPool.FreshBlockCanOverrun | src/allocator.cpp:133-137 | one byte aligned to 4 MiB overruns its fresh block on some page the kernel may choose |
| BlockPool.BumpIsSoundExactlyWithRoom | src/allocator.cpp:116-123 | for any 64-bit request, bumping a block keeps blocks apart and within size and all regions aligned, inside a block and apart if and only if that block has room, whatever the wrapped test said |
| BlockPool.AppendIsSoundExactlyWithoutWrap | src/allocator.cpp:59-88 | linking a mapped block keeps the invariant if and only if its size plus header does not wrap |
| BlockPool.ConfiguredCapacityCanWrap | src/allocator.cpp:39-46 | Initialize called on an empty list with a capacity of 2^64 - 20 maps 12 bytes and records the capacity as payload |
| BlockPool.CallIsSoundExactlyWhenServed | src/allocator.cpp:39-140 | one call with 64-bit arguments and a power of two keeps every region ever handed out aligned, inside a block and pairwise apart if and only if the block it turns to, if any, has room (Served); the pointer returned starts the one region added |
| BlockPool.HistoryIsSoundExactlyWhenServed | src/allocator.cpp:39-140 | over any history of Initialize, Allocate and Shutdown that is Admissible (64-bit arguments, powers of two, answers the kernel may give) the invariant holds throughout if and only if every call was Served |
| BlockPool.OrdinaryRequestsAreServed | src/allocator.cpp:101-140 | a request below 2^63 is Served in any state and for any answers if Holds accepts it, or if the kernel refuses a new block |
| BlockPool.EveryHistoryKeepsPool | src/allocator.cpp:39-140 | after any Admissible history of Ordinary requests (below 2^63, accepted by Holds; capacities that do not wrap) every region is aligned, inside a block and apart from the others |
| BlockPool.RegionInOneBlock | src/allocator.cpp:101-140 | in every such state a region lies inside the payload of exactly one block |
| BlockPool.FirstBlockWithRoom | src/allocator.cpp:109-123 | the pointer is the first aligned address past the used part of the first block, in list order, that has room; only that block changes |
| BlockPool.NewBlockOnlyWhenFull | src/allocator.cpp:125-139 | a block is mapped only when no block of the list has room; it has twice the size of the request and 2 MiB at least, is linked last and holds the pointer; bad_alloc changes nothing |
| BlockPool.FirstBlockSize | src/allocator.cpp:39-46 | a first block is as large as configured but not below 2 MiB; a list, or a refusal, is left as it is |
| BlockPool.AllocatingOnAnEmptyList | src/allocator.cpp:104-107 | without a list a block of 2 MiB is mapped first and the call goes on as on that list, or nothing is handed out |
| BlockPool.MappingSize | src/allocator.cpp:61 | a mapping is the payload and 32 bytes, modulo 2^64 |
| BlockPool.NewBlockIsTwiceTheRequest | src/allocator.cpp:126 | for any request the new block has twice its size modulo 2^64, or 2 MiB if that is more |
| BlockPool.RoomForASecond | src/allocator.cpp:118-126 | a block mapped for one request has room for an equal second one if and only if the size is a multiple of the alignment or the block has the minimal size |
| BlockPool.SecondRequestSharesTheBlock | src/allocator.cpp:101-140 | of two equal requests that no block had room for, the first gets the start of a new block and the second, without a mapping, the address right behind it if the size is a multiple of the alignment |
| MemoryBound.RefusalMeansHalfFull | src/allocator.cpp:118-127 | a minimal block that refuses a request below 1 MiB is at least half used, up to the alignment |
| MemoryBound.StepKeepsEconomical | src/allocator.cpp:101-140 | behind the head, every Served call keeps at most one block less than half used, and that one minimal |
| MemoryBound.MappedMemoryBound | src/allocator.cpp:112-137 | over every Admissible history whose calls were Served the mapped payload stays within head block, one minimal block, twice the bytes in use and twice the largest alignment for each further block |
| IsolatedAllocator.MappingOneMore | src/allocator.cpp:59-88 | a fresh block appended to the list is mapped once, with its own length, and everything mapped is still listed |
| IsolatedAllocator.BumpingKeepsMappings | src/allocator.cpp:120 | a bump anywhere in the list leaves the correspondence of blocks and mappings as it is |
| IsolatedAllocator.IsolatedAllocator.AllocateOSBlock | src/allocator.cpp:59-88 | one mapping of the requested size plus header, with an empty unlinked node in it, or nothing at all |
| IsolatedAllocator.IsolatedAllocator.Initialize | src/allocator.cpp:39-46 | a first block of at least the minimum when there is no list; throws exactly if the list is still empty, because the kernel refused |
| IsolatedAllocator.IsolatedAllocator.FindFirstFit | src/allocator.cpp:109-123 | the walk over the acyclic list ends at the first block that passes the test, with its aligned address, or with the last block |
| IsolatedAllocator.IsolatedAllocator.Allocate | src/allocator.cpp:101-140 | on the heap: the list stays acyclic, complete and mapped exactly, nothing is unmapped, added nodes are new objects, and pool and pointer are those of first fit on the list |
| IsolatedAllocator.IsolatedAllocator.AllocateFromNewBlock | src/allocator.cpp:125-139 | the tail of the call: map, link a new node last, bump without a test |
| IsolatedAllocator.IsolatedAllocator.FreeOSBlock | src/allocator.cpp:90-99 | unmaps a mapped block with the very length it was mapped with |
| IsolatedAllocator.IsolatedAllocator.Shutdown | src/allocator.cpp:48-57 | every block is unmapped exactly once, in list order, with the length it was mapped with; no node is read after its page is gone; nothing stays mapped |
| IsolatedAllocator.IsolatedAllocator.PerformAll | src/allocator.cpp:39-140 | any history of calls on the linked nodes keeps the list acyclic, complete and mapped exactly and has the contents and pointers of the history on values; all regions are as promised if every call was served, in particular for ordinary requests |
| Tracking.StepKeepsInv | src/memory/linux_alloc_hooks.cpp:79-150 | every step other than a harmful erasure keeps: one owner per live resource, entries of settled resources present and current, no other entries except those about to be erased |
| Tracking.ErasureIsHarmlessExactlyWhenUnowned | src/memory/linux_alloc_hooks.cpp:146-148 | the erasure in realloc keeps the invariant if and only if nobody owns the erased address by then |
| Tracking.RunKeepsInv | src/memory/linux_alloc_hooks.cpp:79-150 | any run of any number of threads whose realloc erasures are harmless keeps the invariant |
| Tracking.TrackingIsExact | src/memory/linux_alloc_hooks.cpp:79-119 | for any interleaving of acquisitions and releases the map is within the live resources and current, misses exactly what some thread holds mid-call, and between calls is the live table |
| Tracking.HarmlessTrackingIsExact | src/memory/linux_alloc_hooks.cpp:79-150 | with realloc in the interleaving, as long as its erasures are harmless: what the map misses or has out of date is in some thread's hand or about to be erased by one, what no reallocation is about to erase is missing exactly when held mid-call, and between calls the map is the live table |
| Tracking.MissedIsMidCall | src/memory/linux_alloc_hooks.cpp:93-150 | the same in every state that satisfies the invariant |
| Tracking.QuiescentMapIsLive | src/memory/linux_alloc_hooks.cpp:79-150 | between calls the map equals the system's table |
| Tracking.CorrectExactlyWhenHarmless | src/memory/linux_alloc_hooks.cpp:142-150 | in every state of a run the map misses or misstates only what a thread has in hand or is about to erase, if and only if no realloc erases an owned address |
| Tracking.HarmfulErasureIsNotExact | src/memory/linux_alloc_hooks.cpp:146-148 | erasing an owned address leaves a live block that the map misses although no thread is mid-call with it |
| Tracking.UndisturbedReallocation | src/memory/linux_alloc_hooks.cpp:142-150 | with nothing in between, realloc's erasure is harmless if and only if real_realloc did not fail |
| Tracking.WholeReallocation | src/memory/linux_alloc_hooks.cpp:142-150 | the net effect of an undisturbed realloc on live blocks, map and ownership for each of: moved, in place, freed, failed |
| Tracking.MovingReallocationCanLoseAnEntry | src/memory/linux_alloc_hooks.cpp:146-148 | two threads can end with both calls finished and a live block missing from the map |
| AllocationHooks.Hooks.MallocHook | src/memory/linux_alloc_hooks.cpp:103-107 | with the real functions bound or bound on the way, passes the library's answer through and records it with the requested size unless it is null, detection is off or there is no map |
| AllocationHooks.Hooks.FreeHook | src/memory/linux_alloc_hooks.cpp:115-118 | erases the entry of a library block and releases the block |
| AllocationHooks.Hooks.CallocHook | src/memory/linux_alloc_hooks.cpp:135-139 | records the product as the 64-bit code computes it |
| AllocationHooks.Hooks.ReallocHook | src/memory/linux_alloc_hooks.cpp:142-150 | erases a non-null old address whatever happened, then records the answer if any |
| AllocationHooks.Hooks.PosixMemalignHook | src/memory/linux_alloc_hooks.cpp:161-170 | records only on status zero with a stored non-null pointer, and returns the status |
| AllocationHooks.Hooks.GetLinuxTrackedAllocations | src/memory/linux_alloc_hooks.cpp:176-185 | lists every entry of the map exactly once, unmarked, in any order |
| AllocationHooks.SessionTracksAllButForgotten | src/memory/linux_alloc_hooks.cpp:79-170 | after any calls on any heap the map is the session's own live blocks with their latest sizes, less those a failed realloc left behind |
| AllocationHooks.TrackedExactlyWhenNoneForgotten | src/memory/linux_alloc_hooks.cpp:142-150 | tracked equals live if and only if no own live block was left behind by a failed realloc |
| AllocationHooks.NothingForgottenWithoutFailure | src/memory/linux_alloc_hooks.cpp:142-150 | no realloc failure, nothing left behind |
| AllocationHooks.OwnBlocksAreLive | src/memory/linux_alloc_hooks.cpp:93-170 | the session's own live blocks are live in the process with the same sizes |
| AllocationHooks.FailedReallocationHidesALeak | src/memory/linux_alloc_hooks.cpp:146-148 | a session of two calls ends with a live block and an empty map |
| Leftovers.LeftoversShowUnlessTouched | src/core.cpp:77-101 | a session on a map with old entries ends like one on an empty map if and only if its calls touched every old address |
| Leftovers.UnseenFreeStays | src/core.cpp:97-100 | a block freed while detection is off keeps its entry into all that follows |
| Leftovers.FreedBlockIsReported | src/memory/linux_alloc_hooks.cpp:85-89 | a second session that makes no call still has a block freed between the sessions in its map |
| BootstrapBuffer.AdmitsIsExactWithoutWrap | src/memory/linux_alloc_hooks.cpp:96 | the capacity test is right if and only if index plus length does not wrap |
| BootstrapBuffer.AdmitsCanWrap | src/memory/linux_alloc_hooks.cpp:96 | once anything is served, the test admits 2^64 less the index |
| BootstrapBuffer.BootstrapBuffer.Malloc | src/memory/linux_alloc_hooks.cpp:95-102 | serves the piece behind all earlier ones exactly if the test admits it; pieces stay apart and inside the buffer if and only if the sum does not wrap |
| BootstrapBuffer.BootstrapBuffer.Calloc | src/memory/linux_alloc_hooks.cpp:123-134 | for any 64-bit product: serves and zeroes that piece and not a byte beside it exactly if it fits, refuses and changes nothing, or stores past the end of the buffer, which happens if and only if the sum wraps |
| InitOnce.StepKeepsInv | src/memory/linux_alloc_hooks.cpp:69-77 | every step keeps at most one thread in the body, nobody back before completion, functions bound in order |
| InitOnce.InitializedOnceBeforeAnyReturn | src/memory/linux_alloc_hooks.cpp:54-77 | in both layers, for any threads and interleaving, the body runs at most once and nobody returns before each of the layer's six real functions is bound and, for the allocation hooks, the map exists |
| InitOnce.CompletesUnlessStalled | src/io/linux_io_hooks.cpp:39-47 | initialisation can still complete if and only if the body is not abandoned by a re-entry |
| InitOnce.StalledForever | src/memory/linux_alloc_hooks.cpp:71-73 | once abandoned, no run ever initialises |
| InitOnce.ReentryStalls | src/memory/linux_alloc_hooks.cpp:93-136 | a re-entry from inside a lookup abandons the body; malloc, calloc and free of a bootstrap pointer never make one |
| InitOnce.BodyFinishes | src/memory/linux_alloc_hooks.cpp:54-77 | the thread in the body can finish without any other thread |
| InitOnce.SpinnersReturn | src/memory/linux_alloc_hooks.cpp:71-74 | once initialised, a run of spinning threads alone brings every one of them back and moves nobody else |
| InitOnce.SpinnersGetOutUnlessStalled | src/memory/linux_alloc_hooks.cpp:69-77 | from any reachable state some run leaves no thread spinning if and only if the protocol has not stalled, or nobody spins |
| InitOnce.FreeingInALookupStalls | src/memory/linux_alloc_hooks.cpp:110-116 | a lookup that frees a pointer from elsewhere stalls a program of one thread |
| InitOnce.LookupsThatOnlyAllocateNeverStall | src/memory/linux_alloc_hooks.cpp:93-136 | if lookups only allocate and free what they allocated, no run of either layer stalls |
| LeakGroups.SortIsSortedPermutation | src/memory/memory_analyzer.cpp:194-197 | the reference sort permutes and sorts: size descending, address ascending |
| LeakGroups.SortedIsUnique | src/memory/memory_analyzer.cpp:194-197 | two sorted permutations of unmarked records are equal |
| LeakGroups.GroupsAreMaximalRuns | src/memory/memory_analyzer.cpp:352-387 | the groups are maximal runs of equal size and concatenate to the list |
| LeakGroups.MaximalRunsAreUnique | src/memory/memory_analyzer.cpp:352-387 | no other division into maximal runs concatenates to the list |
| LeakGroups.GroupSizesDecrease | src/memory/memory_analyzer.cpp:352-387 | in a sorted list the group sizes strictly decrease |
| LeakGroups.AddressesIncrease | src/memory/memory_analyzer.cpp:352-387 | within a group the addresses strictly increase |
| HexText.HexAddressIsTheNumeral | src/memory/memory_analyzer.cpp:368-370 | a text is the one printed for an address if and only if it is 0x and lower-case hexadecimal digits without a leading zero that read as that address |
| HexText.HexAddressIsInjective | src/memory/memory_analyzer.cpp:368-370 | different addresses have different texts |
| HexText.HexAddressFitsBuffer | src/memory/memory_analyzer.cpp:368-369 | every 64-bit address fits the 32-byte buffer, terminator included |
| LeakReport.CollectLeaks | src/memory/memory_analyzer.cpp:181-192 | the unmarked allocations in order, their number, and their bytes modulo 2^64 |
| LeakReport.GroupAccumulator.FlushGroup | src/memory/memory_analyzer.cpp:336-350 | the accumulated group, if any, becomes the last one of both arrays that are configured |
| LeakReport.GroupAccumulator.Add | src/memory/memory_analyzer.cpp:352-386 | one iteration extends the groups by one record: into the open group if sizes agree, else into a new one |
| LeakReport.GroupLeaks | src/memory/memory_analyzer.cpp:331-387 | the loop and the last flush produce the entries of all maximal runs in order |
| LeakReport.RunLeakDetection | src/memory/memory_analyzer.cpp:174-395 | a report is emitted exactly if there is a leak and a reporter; it has summary and details exactly as configured and is the report on the sorted leaks |
| ReportLaws.LeaksAreTheUnmarked | src/memory/memory_analyzer.cpp:186-192 | each unmarked record is kept as often as it occurs, and no marked one |
| ReportLaws.AnySortGivesTheReport | src/memory/memory_analyzer.cpp:194-197 | any arrangement of the leaks sorted by the comparator is the one reported on |
| ReportLaws.ReportIgnoresEnumerationOrder | src/memory/memory_analyzer.cpp:174-395 | two enumerations of the same blocks in any orders give identical reports |
| ReportLaws.SummaryConserves | src/memory/memory_analyzer.cpp:320-345 | counts add up to the leaks, sizes times counts to their bytes, and the total is that sum modulo 2^64, exact if and only if it does not wrap |
| ReportLaws.DisjointBlocksDoNotOverflow | src/memory/memory_analyzer.cpp:190 | blocks that share no address and lie in the address space cannot wrap the total |
| ReportLaws.ItemDescribesItsStretch | src/memory/memory_analyzer.cpp:336-374 | item i of the summary describes the stretch of the sorted leaks right after those counted before it: its count, its one size, and texts that read as its first hundred addresses, or all |
| ReportLaws.GroupExplainsItsStretch | src/memory/memory_analyzer.cpp:352-387 | group i of the details names in order the blocks of the stretch right after those listed before it: texts that read as their addresses, their one size, and the resolved type name of each exactly if there is one; together the groups are as long as the list |
| ReportLaws.SizesDecrease | src/memory/memory_analyzer.cpp:352-387 | in both parts of the report the sizes strictly decrease |
| ReportLaws.SizesStatedUnlessAllEmpty | src/memory/memory_analyzer.cpp:331-364 | every group of the details states its size if and only if some leak is not empty |
| ReportLaws.EmptyLeakHasNoSize | src/memory/memory_analyzer.cpp:331-364 | one leak of size 0 gives a group without a size |
| Reachability.MarkReachability | src/memory/memory_analyzer.cpp:145-160 | in place: the first listed block the value points into is marked, nothing else changes |
| Reachability.MarksExactlyTheHit | src/memory/memory_analyzer.cpp:145-160 | on blocks that do not overlap, after any values a block is marked if and only if it was before or some value points into it; blocks keep address, size and place |
| Reachability.PointsIntoIsMembership | src/memory/memory_analyzer.cpp:155 | the test is membership in the block if and only if the block ends below 2^64; a block that does not is pointed into by nothing |
| Reachability.MarksExactlyTheReached | src/memory/memory_analyzer.cpp:145-160 | on blocks that share no address and end below 2^64, a block is marked if and only if it was before or one of the values is one of its addresses |
| Reachability.MarkingIgnoresValueOrder | src/memory/memory_analyzer.cpp:145-160 | order and repetition of the values do not matter |
| Reachability.MarkingIgnoresListOrder | src/memory/memory_analyzer.cpp:145-160 | a block gets the same mark wherever it stands in the list |
| Reachability.AllHitsMarkedExactlyWithoutOverlap | src/memory/memory_analyzer.cpp:153-158 | each value marks all blocks it points into if and only if no address points into two |
| Reachability.OverlapHidesAHit | src/memory/memory_analyzer.cpp:153-158 | of two blocks that share an address only the first listed is marked by it |
| IoMonitor.Clipped | src/io/io_monitor.cpp:107 | the text kept is the path's first 1023 characters, or all of it |
| IoMonitor.IoMonitor.DisableMonitor | src/io/io_monitor.cpp:81-95 | switches off and empties the map, or does nothing when off |
| IoMonitor.IoMonitor.OnOpen | src/io/io_monitor.cpp:101-112 | while enabled, a valid descriptor is recorded as a file with the first 1023 characters of its path, or none for a null path |
| IoMonitor.IoMonitor.OpenHook | src/io/linux_io_hooks.cpp:51-65 | the kernel's answer is passed through, and recorded if it is a descriptor |
| IoMonitor.IoMonitor.SocketHook | src/io/linux_io_hooks.cpp:124-131 | the same for a socket |
| IoMonitor.IoMonitor.CloseHook | src/io/linux_io_hooks.cpp:115-122 | erases the descriptor and returns the kernel's answer, or -1 without a real close |
| IoMonitor.IoMonitor.ReportLeakedFds | src/io/io_monitor.cpp:130-153 | a report exactly if enabled, non-empty and a reporter exists; it lists every entry once, in any order |
| IoMonitor.EnabledIsLastSwitch | src/io/io_monitor.cpp:67-95 | monitoring is on exactly if an Enable has not been followed by a Disable, and the map is empty when it is off |
| IoMonitor.MapIsHistory | src/io/io_monitor.cpp:67-128 | over any sessions the map holds exactly the descriptors opened since monitoring was last switched on and not closed since, each as a file or a socket and with the text its latest open or socket call gives |
| IoMonitor.DescriptionIsUnique | src/io/io_monitor.cpp:101-128 | that description leaves one entry only |
| IoMonitor.ReportIsHistory | src/io/io_monitor.cpp:130-153 | the report names exactly the descriptors the history left open, each with the flag and text its latest call gives |
| StatLine.ParseReadsBackPrinted | src/profiler/cpu_monitor.cpp:187-198 | for every thread name, spaces and parentheses included, a printed line gives exactly its utime and stime if all fields up to them fit their types, and nothing otherwise |
| StatLine.LongsReadBack | src/profiler/cpu_monitor.cpp:195-197 | any run of printed signed fields is read back if all are in range, and not at all otherwise |
| StatLine.UnsignedsReadBack | src/profiler/cpu_monitor.cpp:195-197 | any run of printed unsigned fields is read back if all are in range, and not at all otherwise |
| StatLine.FindLastSkips | src/profiler/cpu_monitor.cpp:187-190 | the search finds the last parenthesis, whatever stands before it |
| StatLine.TruncatedLineGivesNothing | src/profiler/cpu_monitor.cpp:187-198 | a line without a closing parenthesis, or with no field behind the last one, gives no times |
| CpuMonitor.CpuMonitor.Check | src/profiler/cpu_monitor.cpp:200-218 | a thread is captured exactly if it was above 90% since its last record, and its record is always replaced |
| CpuMonitor.CpuMonitor.CheckThreadsForHighCpu | src/profiler/cpu_monitor.cpp:162-222 | one sweep records the sample of every well-formed entry and captures in order the threads that were busy |
| CpuMonitor.CpuMonitor.MonitorLoop | src/profiler/cpu_monitor.cpp:66-71 | any number of sweeps leave the records, and capture sweep by sweep, as the samples of all of them in order determine |
| CpuMonitor.CpuMonitor.Stop | src/profiler/cpu_monitor.cpp:57-64 | clears the flag and the records, or changes nothing when not running |
| CpuMonitor.ListedThreadIsSampled | src/profiler/cpu_monitor.cpp:170-203 | an entry as the kernel lists a thread yields a sample exactly if its fields fit, of that thread, with the user and system ticks together in nanoseconds, exact if and only if that does not wrap |
| CpuMonitor.CpuTimeIsBothTimes | src/profiler/cpu_monitor.cpp:200 | the CPU time is the sum of both times in nanoseconds modulo 2^64, divided by the ticks per second and rounded down; it is the unwrapped quotient if and only if nothing wraps |
| CpuMonitor.OtherEntriesGiveNoSample | src/profiler/cpu_monitor.cpp:171-198 | dot entries, names that are not numbers, unreadable files and lines that do not parse yield no sample |
| CpuMonitor.SamplesInOrder | src/profiler/cpu_monitor.cpp:170-220 | a sweep samples each entry that yields a sample once, in order |
| CpuMonitor.CapturesInOrder | src/profiler/cpu_monitor.cpp:203-218 | the captures of a sweep are the threads of the captured samples, each once and in order |
| CpuMonitor.NoCaptureWithoutAnInterval | src/profiler/cpu_monitor.cpp:203-213 | a thread is not captured when first seen or when the clock has not moved |
| CpuMonitor.BackwardTimeIsCaptured | src/profiler/cpu_monitor.cpp:205-210 | a thread whose CPU time has gone back, as when its id is reused, is captured if and only if 2^64 less the difference exceeds 90% of the time passed |
| CpuMonitor.RecordIsLastSample | src/profiler/cpu_monitor.cpp:213-218 | whatever other threads do in between, a thread's record is its last sample |
| CpuMonitor.CaptureComparesNeighbours | src/profiler/cpu_monitor.cpp:205-216 | a sample is captured if and only if usage since the same thread's previous sample exceeded 90% |
| CpuMonitor.AverageAndCaptures | src/profiler/cpu_monitor.cpp:200-218 | over any window of a thread's samples, in one list with those of other threads, an average above 90% forces a capture, and captures throughout force that average |
| CpuMonitor.CapturesJoin | src/profiler/cpu_monitor.cpp:66-71 | sweeps run one after the other capture what one sweep over all their samples would |
| CpuMonitor.CapturedInSweep | src/profiler/cpu_monitor.cpp:203-218 | a thread is captured in a sweep if and only if its sample there is captured among the samples of all sweeps |
| CpuMonitor.AverageAndSweeps | src/profiler/cpu_monitor.cpp:66-71 | over any window of sweeps that list a thread at most once, from any records (none after a Stop): an average above 90% forces some later sweep to capture the thread, and capture by every sweep that lists it forces that average |
| Lifecycle.StepKeepsInv | src/core.cpp:37-101 | every step of main and monitor thread keeps the reporter alive while the monitor may use it |
| Lifecycle.ReportersOutliveTheirReports | src/core.cpp:37-101 | over any cycles and interleavings every report goes to a constructed, not destroyed reporter, at most one exists, and no monitor step is possible after Stop returns |
| Lifecycle.ReportsAreReceived | src/profiler/cpu_monitor.cpp:248-251 | each report of either thread is received once, by the current reporter, which exists, and no other step makes one |
| Lifecycle.InitMakesReporterAndMonitor | src/core.cpp:49-74 | Init alone ends with a new reporter and with a monitor thread exactly if the profiler is configured |
| Lifecycle.BusyThreadIsReported | src/profiler/cpu_monitor.cpp:66-71 | while the monitor runs, a thread found busy is reported to the session's reporter by the monitor alone |
| Lifecycle.JoinSucceeds | src/profiler/cpu_monitor.cpp:57-71 | once the flag is cleared the monitor can end its loop from anywhere and the join succeeds |
| Core.DomovoyCore.Init | src/core.cpp:37-75 | when initialised, nothing changes; else the configuration is taken, and: done, with a reporter, both layers bound, each monitor on exactly if it was or is configured, and pool memory given out for the map of unbound hooks and for the reporter; or thrown, with both monitors as they were and memory given for the map at most; or spinning exactly if an earlier throw left the binding without its map |
| Core.InitKeepsItsPromise | src/core.cpp:37-75 | the same for the function Init computes, from every state |
| Core.InitKeepsCoherent | src/core.cpp:37-75 | in every outcome of Init the hooks have a map only when it is in the pool, detection is as configured, and an initialised framework is bound |
| Core.ConfiguredCapacityHasNoEffect | src/core.cpp:42-47 | two calls of Init that differ only in the configured capacity end with the same pool, result and state |
| Core.DomovoyCore.Shutdown | src/core.cpp:77-101 | the CPU monitor is stopped and its records cleared; the leak report is the one on any enumeration of the map, with summary and details exactly as configured, and the descriptor report lists the monitor's map, both before monitoring stops; afterwards nothing is enabled and the configuration is the default |
| Core.AnyEnumerationGivesTheReport | src/memory/linux_alloc_hooks.cpp:176-185 | all iteration orders of the map give the same report |
| Session.SessionReportIsExact | src/memory/memory_analyzer.cpp:174-395 | without failed reallocations the details list exactly the blocks obtained and not given back, once each under their last size, and there is a leak to report exactly if there is one |
| Session.SessionReportMissesOnlyForgotten | src/memory/memory_analyzer.cpp:174-395 | with failures the details list exactly the rest |
| Session.RunSession | src/core.cpp:77-101 | hooked calls performed in order on an empty map and then Shutdown: a report is emitted exactly if some own block is live and not left behind by a failed realloc, and its details list exactly those blocks |
| Session.HarmlessRunReportIsExact | src/memory/linux_alloc_hooks.cpp:79-185 | after any run of any number of threads whose realloc erasures are harmless, between calls, the details list exactly the live blocks, once each under their last size |
| Session.LeftoversCanWrapTheTotal | src/memory/memory_analyzer.cpp:190 | sessions that each leave one entry of 2^46 bytes, one block live at a time and all below 2^47, can exceed 64 bits together, and then the total reported is not their sum |
| Session.DetailsListExactly | src/memory/memory_analyzer.cpp:352-387 | the details of an enumerated map name each block once, under its size, and nothing else |
| Session.AllocationIsARun | src/memory/linux_alloc_hooks.cpp:93-108 | the sequential malloc is an undisturbed run of the step machine |
| Session.FreeIsARun | src/memory/linux_alloc_hooks.cpp:110-119 | the sequential free is an undisturbed run of the step machine |
| Session.ReallocationIsARun | src/memory/linux_alloc_hooks.cpp:142-150 | the sequential realloc is one too, in each of its four outcomes |
| Session.CallsAreARun | src/memory/linux_alloc_hooks.cpp:93-170 | any sequence of calls that program and library may make is one run of the step machine, from any state in which the application owns the live blocks, with the live blocks and map of the sequential model |
| Session.DescriptorTrackingIsExact | src/io/linux_io_hooks.cpp:51-131 | for any number of threads opening and closing reused descriptors, between calls the map is exactly the open descriptors |
| Session.OpenIsARun | src/io/linux_io_hooks.cpp:51-65 | the monitor's map after an open hook is the one the step machine leaves |
| Session.CloseIsARun | src/io/linux_io_hooks.cpp:115-122 | the monitor's map after a close hook is the one the step machine leaves |

## Left out

- Session.DescriptorTrackingIsExact: takes monitoring as enabled throughout; a Disable concurrent with an OnOpen that has already passed the unlocked test can leave an entry behind the clear, so claims across sessions are sequential (MapIsHistory).
- CpuMonitor.AverageAndSweeps: takes the ratio exactly, where the code divides floating-point numbers, and asks for a forward clock and CPU time, so reuse of a thread id with a smaller time is outside it (BackwardTimeIsCaptured says what happens then).
- InitOnce.InitializedOnceBeforeAnyReturn: steps are sequentially consistent; the plain reads of function pointers that other threads make while the body is assigning them are not ordered by the two atomics and are not modelled.
- AllocationHooks.Hooks.FreeHook: takes library blocks and the null pointer; the early return for a pointer into the bootstrap buffer (src/memory/linux_alloc_hooks.cpp:112-114) is modelled in InitOnce.PathOf.
- Core.DomovoyCore.Init: leaves out the crash handler with its alternate stack from the pool, and the reporter's directory string; the sizes of map and reporter are parameters.
- Core.DomovoyCore.Shutdown: leaves out the crash handler.
- AllocationHooks.Hooks.EnsureInit: does not place the map in the pool; Core.DomovoyCore.Init does when it is the one to bind, and expects a map of hooks bound earlier to be in the pool.
- The allocator's mutex: its operations are modelled as atomic, which is what the lock makes them.
- `Deallocate` and the `StlAllocator` adapter: the first does nothing, the second forwards.
- The framework's own allocations of report objects and map nodes inside the isolated pool, and `std::bad_alloc` from them.
- Hash map and `std::sort` internals: maps with atomic insert and erase, and a sort specified by its result.
- Type-name resolution (RTTI, `dladdr`, symbolisation): an arbitrary function of address and size.
- Bytes and encodings of paths and names: strings without the terminator; a null path is an absent one.
- Bootstrap pointers freed or reallocated after the real functions are bound, and threads other than the initialising one that reach the bootstrap buffer.
- `open64`, `openat` and `openat64`, which differ from `open` in the real function they call; `dup` and `aligned_alloc`, which are not hooked.
- macOS and Windows branches, the crash handler, JSON serialisation and report files: foreign calls and I/O.
- Backtrace contents: a capture is the fact that it is taken.
- The race of Init or Shutdown called from two threads: both are modelled for one main thread.
