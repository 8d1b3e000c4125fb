# Grinch, verified

A Dafny model of the hard parts of the Grinch kernel, with proofs. Each part of the kernel is
refined to a simple object: page tables to a map from addresses to frames, translation caches to
what the page table says, the scheduler to an ownership relation, the heap to a list of blocks,
bitmaps to sets of pages, areas and fork to what a process sees, the lookup cache to the handles
that are open, a device tree blob to a tree, arithmetic and text to numbers.

Code that works in place is modelled in place (classes, arrays, loops); protocols between CPUs are
step machines whose steps interleave freely, and the results hold in every reachable state.
Integer widths are written out where the code depends on them.

| files | part of the kernel |
|---|---|
| `Sv39`, `PageTree`, `PageRange`, `PageSteps`, `PageRoot`, `PageFull`, `Paging`, `PageLeak`, `Sharing`, `SharingCode` | page tables with huge pages (mm/paging.c, arch/riscv/paging.c, arch/riscv/task.c) |
| `Tlb` | translation caches, ASIDs and loaded roots (mm/asid.c, mm/vma.c, arch/riscv, kernel/task.c) |
| `Sched`, `SchedOwner`, `SchedWait`, `SchedTimer`, `SchedWake`, `SchedCode`, `List` | tasks, wait and exit, timers (kernel/task.c, kernel/timer.c, include/grinch/list.h) |
| `Salloc`, `SallocCode` | heap (common/src/salloc.c, user/libc/src/stdlib.c) |
| `Bitmap`, `Gfp` | bitmaps and pages (lib/bitmap.c, mm/mm.c, mm/gfp.c) |
| `Vma` | user memory, fork, user copies (mm/vma.c, kernel/uaccess.c) |
| `Vfs`, `VfsPath`, `VfsWalk`, `VfsCode` | lookup cache (fs/vfs.c) |
| `Fdt`, `FdtTree`, `FdtCode`, `FdtReader` | device tree blobs (lib/libfdt) |
| `Div64`, `Text` | division by reciprocal, printing and parsing (common/) |
| `Smp` | calls on every CPU (kernel/smp.c) |
| `Wrappers`, `Basics` | what several files share |

Some definitions are guarded by a trivially true predicate (`Look...`): they unfold only in
proofs that mention the guard.

## What the code does not meet

These follow from the code as it is. Each has its exact condition, and an input or a run that
shows it.

- Table pointers carry the G bit (arch/riscv/paging.c:104-111), and section 4.3.1 of the RISC-V
  Privileged Architecture, version 20211203, makes everything below such a pointer global. Cached
  translations then outlive a switch between processes (`Tlb.TakeoverStale`). On such hardware a
  run stays right as long as no CPU enters a process with its own identifier while it holds a
  global translation that is not one of that process (`Tlb.CalmIsFresh`), and an entry with one
  that the process does not have goes wrong at once (`Tlb.BringingIsStale`).
- A task that blocks in wait is released while its root stays loaded: `task_activate(NULL)` with
  no current task returns at once (kernel/task.c:179-182, 313-316). If the process exits on
  another CPU, its root is freed and its identifier recycled under a CPU that still walks it
  (`Tlb.LeftBehindStale`). What a CPU has cached is right in all reachable states if and only if
  neither of the two happens (`Tlb.FreshInEveryRun`); in a single run it is right as long as, in
  addition to the above, no process exits whose root another CPU still has (`Tlb.CalmIsFresh`),
  and from any such exit the kernel can get to a wrong translation (`Tlb.LingeringIsFatal`).
- Tables of a live tree are released after a flush of this CPU alone. On the kernel root, other
  CPUs are flushed later (mm/ioremap.c:142-147), so their walkers may use every table released
  (`Paging.PageTables.UnmapRange`).
- Unmapping a part of a 1 GiB page splits it, and a split that fails half way is not flushed
  (mm/paging.c:120-127): this CPU keeps the old translation if and only if exactly one page was
  free (`Paging.PageTables.Split`, `PageLeak.SplitUnflushed`). Mapping never leaves a translation
  behind, and neither does an unmap that succeeds (`Paging.PageTables.MapRange`,
  `Paging.PageTables.UnmapRange`).
- A mapping that puts a 1 GiB leaf over a kept, empty table of `kernel_root` loses that table;
  `Paging.PageTables.Create` states exactly which tables are lost, and `PageLeak.TableLost` is a
  run that loses one.
- The user copies never test that an address is in user space (kernel/uaccess.c:42-51, 119-170),
  and every page table holds the kernel half. They do what they should below the end of user
  space; beyond it they read and write wherever the low 39 bits of the address lead, kernel memory
  and so that of other processes included, and panic at a device and at the last address of all
  (`Vma.Users.CopyFrom`, `Vma.Users.CopyTo`, `Vma.CopyReachesOthers`).
- `uvma_resize` has no upper bound: areas stay in user space if and only if the new end does
  (`Vma.Users.Resize`).
- Freeing the last chunk of the heap behind a free one drops the mark of the last chunk
  (`SallocCode.LosesLastOpen`, `SallocCode.LastChunkLost`); freeing keeps the heap sound in every
  other case. A split whose rest exceeds 32 bits loses bytes (`Salloc.TakenFacts`,
  `Salloc.SplitLosesBytes`). An increase smaller than a header wraps around
  (`Salloc.GrownFacts`).
- Dead children that a task leaves to init are not announced to it (`SchedWait.ExitMisses`,
  `SchedWait.InitMissesOne`).
- A new memory area reserves all of the kernel's pages that it holds if and only if the kernel
  lies inside it and ends before it does, or lies outside (`Gfp.CreateArea`); otherwise a kernel
  page is handed out again (`Gfp.HandsOutKernelPages`). `phys_free_pages` does not refuse a run of
  main memory that holds some of the kernel's pages, and takes away their reservation
  (`Gfp.Memory.Free`). `p2v(v2p(v)) = v` fails in the direct mapping of the kernel
  (`Gfp.Memory.P2vOfV2p`).
- A mount on `/` that is refused takes away the root's own reference. Like any mount it is refused
  if and only if another handle is at or below the mountpoint, that is one already, or the file
  system refuses (`VfsCode.Cache.Mount`, `VfsCode.RemountTakesRoot`).
- Two calls of `on_each_cpu` at once wait for each other for ever if each is still to be served by
  the CPU of the other, because the kernel lets interrupts in only when it idles
  (kernel/task.c:632-644, `Smp.CrossedForever`, `Smp.BothBegin`). A call that is alone returns
  (`Smp.AloneReturns`).
- Making a directory below an entry without file operations reads through a null pointer
  (fs/vfs.c:212-215, `VfsCode.Make`).
- `file_realpath` cuts an overlong path at an ancestor instead of refusing it
  (`VfsPath.RealPathLeadsBack`, `VfsCode.LongPathIsCut`).
- The room check of `fdt_add_string_` wraps around: a name that is longer than what is left of the
  whole blob is stored in front of it (`FdtCode.Blob.AddString`, `FdtCode.LongNameAstray`).
- What `number` prints with leading spaces or a sign does not read back, and what it prints
  without a prefix or with padding reads back in the wrong base, if the base is left to the reader
  (`Text.RoundTrip`, `Text.RoundTripAuto`).

## Model

| member | source | states |
|---|---|---|
| Sv39.TerminalReadsBack | arch/riscv/paging.c:70-102 | a leaf word built from an aligned frame and flags with R, W or X reads back as a leaf with that frame and those flags |
| Sv39.NextReadsBack | arch/riscv/paging.c:104-116 | a pointer word reads back as a pointer to that table, never as a leaf |
| Sv39.GetPhysOfLeaf | arch/riscv/paging.c:80-97 | or-ing the offset into an aligned leaf's frame is adding it |
| PageTree.Path | mm/paging.c:410-434 | the hardware walk from the root passes exactly the tables that the space owns for a page |
| PageTree.OverwriteInv | mm/paging.c:130-257 | overwriting an entry, a pointer to an empty table included, keeps every table owned once and referenced once |
| PageTree.OverwriteLookup | mm/paging.c:130-257 | overwriting an entry changes what its slot translates to and no other page |
| PageTree.LinkInv | mm/paging.c:259-330 | linking a fresh empty table keeps the ownership of tables |
| PageTree.LinkLookup | mm/paging.c:259-330 | linking a fresh empty table unmaps its slot and nothing else |
| PageRange.SlotOf | mm/paging.c:90-100 | two addresses share an entry of a level exactly when they lie in the same aligned interval of its size |
| PageFull.FullLeaf | mm/paging.c:281-296 | a leaf in the place of an empty table leaves no empty table |
| PageFull.FullStopped | mm/paging.c:200-220 | where the walk up stops, no empty table is left on its path |
| PageFull.NothingLeft | kernel/process.c:293-298 | a tree without empty tables that maps nothing is its root table alone |
| Paging.PageTables.constructor | mm/paging.c:37 | the kernel root before anything is mapped is a sound tree of one empty table; no walker holds anything |
| Paging.PageTables.Zalloc | mm/paging.c:102-128 | a fresh table is zero and belongs to no space |
| Paging.PageTables.Free | mm/paging.c:222-249 | only a page that this CPU's walker can no longer use is released |
| Paging.PageTables.GetEntry | arch/riscv/paging.c:49-63 | the word of an address at a level is the one the hardware walk uses |
| Paging.PageTables.SetEntry | arch/riscv/paging.c:70-78 | exactly one word changes; the leaf it replaces in a live tree stays in the translation cache |
| Paging.PageTables.ClearEntry | arch/riscv/paging.c:118-121 | a pointer cleared in a live tree leaves its table to the walkers of every CPU until that CPU's flush, a leaf its translation to this CPU's cache |
| Paging.PageTables.FlushAll | mm/paging.c:222-249 | after the local flush this CPU holds no unlinked table and no translation of a leaf that was taken out; nothing is said of the other CPUs |
| Paging.PageTables.FlushPage | arch/riscv/include/asm/cpu.h:125-131 | the translations of one address go, unlinked tables stay |
| Paging.PageTables.ScopeOf | mm/paging.c:66-80 | a tree is flushed exactly if it is the kernel's or that of the process that is current on this CPU |
| Paging.PageTables.TableEmpty | arch/riscv/paging.c:123-137 | true exactly if all 512 entries are invalid |
| Paging.PageTables.LinkFresh | mm/paging.c:281-311 | on success an empty table from the free pages is linked and owned; it fails exactly if no page is free, and changes nothing then |
| Paging.PageTables.Split | mm/paging.c:102-128 | replacing a huge leaf by a table changes no translation; other entries are left alone; it fails only when no page is left; the leaf's translation is flushed, except exactly if a 1 GiB page is split for unmapping with one free page |
| Paging.PageTables.SplitLeaf | mm/paging.c:102-128 | the same past the guard, with the new tables accounted for |
| Paging.PageTables.DestroyDescend | mm/paging.c:146-198 | the walk down stops at an invalid entry or at a leaf the range covers, splitting only what crosses an end of the range |
| Paging.PageTables.ClearUp | mm/paging.c:200-220 | clears the path and collects each emptied table once; kernel-half tables of the root stay |
| Paging.PageTables.FlushAndRelease | mm/paging.c:222-249 | the emptied tables are released once, after this CPU's flush, which covers the address too if none was emptied; the walkers of other CPUs may still use every one of them |
| Paging.PageTables.DestroyRound | mm/paging.c:130-257 | one round unmaps the slot its walk ended in and keeps every other translation; what it frees of a live tree is recorded for the other CPUs |
| Paging.PageTables.Destroy | mm/paging.c:130-257 | success unmaps exactly the range, keeps every other translation, accounts for every table, leaves no empty table where there was none, and leaves nothing unflushed; it fails only when no page is left and a leaf reaches across an end of the range; the recursion ends |
| Paging.PageTables.TableBelow | mm/paging.c:298-311 | the table below an entry: linked, split or fresh, with unchanged translations; it fails exactly if it needs a page and none is free |
| Paging.PageTables.CreateDescend | mm/paging.c:259-330 | the walk down ends at the level of the largest leaf that fits, with unchanged translations |
| Paging.PageTables.CreateLeaf | mm/paging.c:281-296 | after releasing what was finer, the leaf maps its slot, nothing else changes, and the address is flushed |
| Paging.PageTables.ReleaseFiner | mm/paging.c:281-294 | the release inside a mapping never splits and never fails |
| Paging.PageTables.CreateRound | mm/paging.c:259-330 | one round maps one slot to its frame and flags |
| Paging.PageTables.Create | mm/paging.c:259-330 | success maps every address of the range to phys plus offset with the flags, keeps every other translation, leaves no empty table where there was none, accounts for every table up to the exact set of lost kernel-half tables, and leaves nothing unflushed; it fails only when no page is left and an address of the range lacks a table that it needs |
| Paging.PageTables.PhysOf | mm/paging.c:410-434 | the software walk gives the address that the hardware walk translates to, or the invalid address if none |
| Paging.PageTables.Prealloc | mm/paging.c:526-555 | every invalid root entry of the range gets a table, and no translation and no other root entry changes; it fails only when no page is left and an entry is still without a table |
| Paging.PageTables.MapRange | mm/paging.c:368-379 | `map_range` maps exactly the range, leaves no empty table where there was none, and keeps the root's pointers unless a root leaf replaces them; in a live tree every released table is recorded for the other CPUs and this CPU is flushed; it fails only for want of a table that it needs |
| Paging.PageTables.UnmapRange | mm/paging.c:357-366 | `unmap_range` unmaps exactly the range, leaves no empty table where there was none, and keeps the kernel half's root pointers; in a live tree every released table is recorded for the other CPUs and this CPU is flushed; it succeeds if no leaf reaches across an end of the range |
| PageLeak.TableLost | mm/paging.c:259-330 | a run that fills a kernel slot in advance and then maps 1 GiB there: a table is left that is neither linked nor free |
| PageLeak.SplitUnflushed | mm/paging.c:102-128 | a run: a 1 GiB page, one free page, and the split of the page fails without a flush |
| Sharing.KernelKeeps | mm/paging.c:200-220 | a map or unmap in the kernel's space leaves all process trees alone and the shared pointers equal |
| Sharing.ProcKeeps | mm/paging.c:130-330 | a map or unmap in one process touches no other tree and not its copied kernel half |
| Sharing.NewKeeps | arch/riscv/task.c:39-54 | a new root shares every kernel pointer and overlaps no tree |
| Sharing.DropKeeps | kernel/process.c:293-298 | freeing a root, whatever it still holds, leaves the other trees alone |
| Sharing.KernelHalfStaysShared | arch/riscv/task.c:39-54 | in every run the pointers that a process copied equal the kernel root's, and trees stay disjoint |
| Sharing.PopulatedHalfIsShared | mm/ioremap.c:51-61 | a kernel half that was full when it was copied is the same in both roots ever after |
| Sharing.AllReclaimed | mm/paging.c:130-330 | in every run, the trees whose maps and unmaps succeeded have no empty table |
| Sharing.RootIsAllThatIsLeft | kernel/process.c:270-301 | when such a process has unmapped everything, its root is its only table, so freeing the root loses none |
| SharingCode.MapProcess | mm/paging.c:368-379 | `map_range` on a process is the step that the runs are made of |
| SharingCode.UnmapProcess | mm/paging.c:357-366 | `unmap_range` on a process is that step |
| SharingCode.MapKernel | mm/paging.c:368-379 | `map_range` on the kernel, below the size of a root leaf, is the kernel's step |
| SharingCode.UnmapKernel | mm/paging.c:357-366 | `unmap_range` on the kernel is the kernel's step |
| Tlb.StepKeeps | mm/vma.c:62-106 | every kernel and hardware step keeps the invariant that cached entries match their page table, up to ranges still being shot down; two kinds of step are set apart: the exit of a process whose root another CPU has, and the entry into a process with a foreign global translation |
| Tlb.StepTranslates | mm/paging.c:130-330 | in every address space and for every page: mapping a page gives it its frame, clearing a leaf takes its pages away, and no other step, a split included, changes a translation |
| Tlb.CalmInv | mm/asid.c:53-90 | the invariant holds after any interleaving without such steps, through migration, recycled identifiers and the untagged 0, whether or not the walker takes the G bit from pointers |
| Tlb.CalmIsFresh | arch/riscv/task.c:56-82 | in such runs no CPU runs a process on a translation that is not its own |
| Tlb.UnmapIsDone | mm/vma.c:62-106 | in any interleaving: when an unmap that cleared every page it found mapped has ended, neither the page table nor what any CPU has cached for the process translates a page of the range, and every other page is translated as before |
| Tlb.UnmapEnds | arch/riscv/cpu.c:145-177 | an unmap that is under way can always be ended, with one flush on every other CPU |
| Tlb.CachedIsMapped | mm/vma.c:97-104 | with no unmap under way, whatever a CPU has cached for a process is what its page table says, on every CPU |
| Tlb.IdsConserved | mm/asid.c:53-90 | in any interleaving every identifier is free, in use or being flushed, and only one of these; none is lost |
| Tlb.KernelFillsNothing | arch/riscv/task.c:56-82 | a CPU that left its process for the kernel's root caches nothing of any process |
| Tlb.BringingIsStale | arch/riscv/paging.c:104-111 | entering a process with a global translation that it does not have is wrong at once |
| Tlb.DroppingIsCalm | kernel/task.c:308-379 | if a CPU drops the root of a task that it releases and no translation is global, every run is such a run |
| Tlb.LingeringIsFatal | kernel/process.c:293-300 | from any such exit the kernel can get to run a process on a translation that is not its own |
| Tlb.LeftBehindRuns | kernel/task.c:179-182 | a concrete run: wait leaves the root loaded, the process exits elsewhere, its identifier is recycled |
| Tlb.LeftBehindStale | kernel/task.c:313-316 | at the end of that run a CPU uses a translation from the freed root |
| Tlb.InvFresh | arch/riscv/task.c:56-82 | under the invariant, what a CPU has cached for the process it enters is what its page table says |
| Tlb.TakeoverStale | arch/riscv/paging.c:104-111 | a concrete run after which a CPU uses another process's translation, if the walker treats G pointers as global |
| Tlb.FreshInEveryRun | arch/riscv/cpu.c:145-177 | all reachable states are fresh if and only if the walker does not treat entries below a G pointer as global and no CPU keeps the root of a task it released in wait |
| SchedOwner.PickFacts | kernel/task.c:393-462 | `schedule` picks a claimable runnable task, the current one, or nothing if none is eligible |
| SchedOwner.StepKeeps | kernel/task.c:308-462 | every step keeps the ownership of tasks and queues |
| SchedOwner.OneOwner | kernel/task.c:308-379 | in every reachable state no task is current on two CPUs, and a task runs exactly on the CPU that owns it |
| SchedOwner.NeverPanics | kernel/task.c:750-787 | no step of any interleaving meets the kernel's own checks, the exit of init set apart |
| SchedOwner.IdlesOnlyWhenNothingRuns | kernel/task.c:393-462 | a CPU idles after `schedule` exactly if no task is runnable and claimable and its own may not go on |
| SchedWait.StepKeeps | kernel/task.c:83-262 | every step keeps family relations, waits and the record of exits |
| SchedWait.WaiterHasLiveChild | kernel/task.c:119-188 | a blocked waiter has a living child it waits for and, unless it is init, no dead one |
| SchedWait.ExitWakesWaiter | kernel/task.c:190-262 | the exit of an awaited child makes the waiter runnable and hands over the child's status |
| SchedWait.DeliveredOnce | kernel/task.c:83-117 | each exited child is delivered at most once, with its own code, and is gone then |
| SchedWait.ExitMisses | kernel/task.c:190-262 | init comes to wait past a dead child exactly when a task with such a child exits and init is not woken by that exit |
| SchedWait.OthersMiss | kernel/task.c:119-188 | no other step brings that about |
| SchedWait.InitMissesOne | kernel/task.c:190-262 | a run from boot on one CPU after which init waits past a dead child |
| SchedTimer.InsertSorted | kernel/task.c:528-564 | queueing a timer keeps the queue sorted |
| SchedTimer.ExpirePass | kernel/task.c:587-630 | one pass wakes exactly the expired tasks, except a machine that runs on another CPU |
| SchedTimer.ExpireSorted | kernel/task.c:587-630 | the pass returns the first entry left, and the rest stays sorted |
| SchedTimer.StepKeeps | kernel/task.c:528-630 | every step keeps the queue sorted, and in it exactly the tasks that wait for a timer |
| SchedTimer.AlwaysSorted | kernel/task.c:536-564 | in every reachable state the timer queue is sorted and holds exactly the tasks that wait for a timer, once each |
| SchedTimer.EventsHandled | kernel/timer.c:64-76 | after the events every task whose time has come is awake and off the queue, except a machine that runs on another CPU; no other task changed; the CPU's next interrupt is the earliest of the one set before and the times still waited for |
| SchedWake.BlockedUntil | kernel/task.c:83-262 | in every reachable state a blocked task becomes runnable by exactly the step that it waits for: its expired timer, its event, or the exit of a child that its wait is for |
| SchedWake.StaysBlocked | kernel/task.c:528-630 | in any run without such a step it stays blocked |
| SchedWake.BlocksUntil | kernel/task.c:119-188 | a task that sleeps, awaits an event, waits for a child or halts is blocked in every run until the step it asked for, and runnable after it |
| SchedWake.SleepsUntil | kernel/task.c:536-630 | a process that sleeps until a time is woken by the first pass over the timers at or after it, on whichever CPU, and by nothing before |
| SchedWake.MachineTimer | kernel/task.c:536-585 | arming queues a machine for its time and lets it run on, cancelling takes it off; no other task is moved |
| SchedWake.ReapDelivers | kernel/task.c:83-188 | a wait that finds a dead child logs its status, drops it and nothing else, and the parent goes on |
| SchedWake.ReschedHeeded | kernel/task.c:393-462 | in any run a CPU that is to reschedule does not return to user mode before it has |
| SchedWake.OncePerEntry | kernel/task.c:119-188 | the kernel acts at most once for each entry from user mode |
| SchedCode.Kernel.Scan | kernel/task.c:393-462 | the scan returns the first eligible task of a part of the queue |
| SchedCode.Kernel.PickNext | kernel/task.c:393-462 | the two scans around the current task pick what the step machine picks |
| SchedCode.Kernel.Reschedule | kernel/task.c:308-462 | the code's new state is the step machine's |
| SchedCode.Kernel.AddTimer | kernel/task.c:536-564 | the insertion loop is the specified insertion |
| SchedCode.Kernel.RunTimers | kernel/task.c:587-630 | the loop that removes in place is the specified pass |
| SchedCode.Kernel.Events | kernel/task.c:587-630 | events and the timer update make the step machine's step |
| List.LinkedInsert | include/grinch/list.h:55-64 | linking between neighbours inserts into the ring |
| List.LinkedRemove | include/grinch/list.h:66-75 | unlinking takes exactly one node out of the ring |
| List.PlaceSorted | include/grinch/list.h:136-150 | insertion before the first later entry keeps the order and goes behind equal ones |
| List.Nodes.Add | include/grinch/list.h:77-80 | the list becomes the entry followed by what it was |
| List.Nodes.AddTail | include/grinch/list.h:82-85 | the list becomes what it was followed by the entry |
| List.Nodes.Del | include/grinch/list.h:87-92 | the list becomes what it was without the entry |
| List.Nodes.AddSorted | include/grinch/list.h:136-150 | the list becomes what it was with the entry before the first later one |
| Salloc.TakenFacts | common/src/salloc.c:101-163 | allocating leaves no free pair and conserves headers plus sizes exactly when the rest of a split fits 32 bits |
| Salloc.SplitLosesBytes | common/src/salloc.c:152-154 | a concrete block whose split loses 4 GiB |
| Salloc.FreedFacts | common/src/salloc.c:220-274 | freeing conserves headers plus sizes and leaves no free pair |
| Salloc.FreeRestores | common/src/salloc.c:220-274 | freeing what was just allocated restores the block list |
| Salloc.GrownFacts | common/src/salloc.c:165-192 | growing leaves no free pair and adds exactly its bytes, unless they are too few for the header of a new chunk |
| Salloc.RetrySucceeds | user/libc/src/stdlib.c:95-117 | after growing by what was asked for, the allocation succeeds |
| Salloc.AlignCovers | common/src/salloc.c:101-110 | the rounded size covers the request except for the last three 64-bit sizes, which wrap |
| Salloc.TakenKeeps | common/src/salloc.c:101-163 | allocating moves and changes no used block |
| Salloc.FreedKeeps | common/src/salloc.c:220-274 | freeing moves and changes no other used block |
| SallocCode.OpenIsBroken | common/src/salloc.c:310-359 | chunks without a last one are no heap, unless a header happens to follow |
| SallocCode.LosesLastOpen | common/src/salloc.c:249-255 | freeing the last chunk behind a free one leaves chunks without a last one |
| SallocCode.LastChunkLost | common/src/salloc.c:249-255 | a new heap of 1024 bytes that two allocations and two frees break |
| SallocCode.GrowthFits | user/libc/src/stdlib.c:54-71 | growing by whole pages serves the request from the last block, and that split loses nothing |
| SallocCode.Heap.constructor | common/src/salloc.c:89-99 | the heap is one free chunk of the given size |
| SallocCode.TakenGrants | common/src/salloc.c:101-163 | the block that first fit takes is used, large enough, and apart from every block that was in use |
| SallocCode.GrownGrants | user/libc/src/stdlib.c:54-71 | growing adds nothing that was in use |
| SallocCode.Heap.Search | common/src/salloc.c:101-163 | the loop finds the first fit, or ends at the last chunk |
| SallocCode.Heap.Alloc | common/src/salloc.c:101-163 | first fit: fails only if no free chunk fits, and reports the increase; otherwise the pointer leads to the data of a used block of the size, which overlaps no block that was in use |
| SallocCode.Heap.Carve | common/src/salloc.c:134-155 | the rest of a block becomes a free chunk; which headers change and how, and that they are sound if the rest fits 32 bits |
| SallocCode.Heap.Increase | common/src/salloc.c:165-192 | the heap grows at its end, into a free last chunk or a new one, whose size wraps around exactly if the increase is smaller than a header |
| SallocCode.Heap.Release | common/src/salloc.c:220-274 | frees and merges as specified unless the chunk is the last behind a free one, and what is left then; a pointer to no chunk is refused |
| SallocCode.Heap.Coalesce | common/src/salloc.c:238-272 | the merges give the specified block list |
| SallocCode.Heap.Fsck | common/src/salloc.c:310-359 | a sound heap of the right size is found in order |
| SallocCode.Heap.Malloc | user/libc/src/stdlib.c:95-117 | the pointer leads to the data of a used block of at least the size, which overlaps no block that was in use; at most one retry, from the last block; fails only if the heap cannot grow, and then changes nothing |
| Bitmap.FindFirst | common/include/grinch/bitops.h:70-99 | the lowest set bit, by halving |
| Bitmap.FindNext | lib/bitmap.c:36-74 | the first bit from start on with the given value, or the size if none |
| Bitmap.Write | lib/bitmap.c:90-130 | exactly the bits of the range take the value |
| Bitmap.AlignUpLeast | lib/bitmap.c:145-168 | the rounded index is the least multiple not below it |
| Bitmap.FindArea | lib/bitmap.c:145-168 | the least aligned run of clear bits at or after start, or a value past the end if there is none |
| Gfp.Area.Take | mm/mm.c:20-43 | takes the first aligned free run, or exactly the run asked for, and nothing else |
| Gfp.Area.Give | mm/gfp.c:205-226 | exactly the run becomes free |
| Gfp.Memory.AllocKernel | mm/gfp.c:171-203 | the first aligned run of the kernel's area that nobody held; nothing exactly if there is none |
| Gfp.Memory.AllocMain | mm/gfp.c:228-259 | the first aligned run of main memory that nobody held, outside the kernel's pages; nothing exactly if there is none |
| Gfp.Memory.Alloc | mm/gfp.c:228-259 | no page is handed out twice across the two aliased areas; the first aligned run of the kernel's area, of main memory if that has none, nothing exactly if neither has one |
| Gfp.Memory.Free | mm/gfp.c:261-280 | exactly the run's pages are given up, those of the kernel set apart; a run that lies in no area is refused; main memory's reservation of the kernel's pages is lost exactly if a run of main memory alone holds some of them |
| Gfp.Memory.SameOffset | mm/gfp.c:102-106 | an address lies as far behind the start of its area in virtual as in physical memory |
| Gfp.Memory.V2pOfP2v | mm/gfp.c:303-340 | every physical address with a virtual one comes back from it |
| Gfp.Memory.P2vOfV2p | mm/gfp.c:303-340 | the other way holds exactly outside the direct mapping of the kernel's pages |
| Gfp.CreateArea | mm/gfp.c:368-418 | which pages of a new area are reserved, and exactly when these are all of the kernel's pages inside it |
| Gfp.HandsOutKernelPages | mm/gfp.c:368-418 | the kernel in the last 512 of 1024 pages: all of them are handed out a second time |
| Vma.Find | mm/vma.c:145-159 | the first area that meets a range, or none if none does |
| Vma.AttachOk | mm/vma.c:25-60 | mapping free frames keeps every frame owned once |
| Vma.DetachOk | mm/vma.c:62-106 | unmapping returns exactly the frames behind the range |
| Vma.Users.Create | mm/vma.c:184-227 | a new area is disjoint from the others and reads as zeros; every other page of every process reads as before; it succeeds exactly if the range is in user space and meets no area, and there is memory |
| Vma.Users.CreateEager | mm/vma.c:25-60 | an eager area is backed by one cleared run of free frames; it succeeds exactly if there is one |
| Vma.Users.Fault | mm/vma.c:258-275 | a page of a lazy area gets a zero frame, exactly if one is free and the kernel has memory for tables, and nothing any process sees changes |
| Vma.Users.DeallocLazy | mm/vma.c:62-106 | the pages of the range are unmapped and exactly their frames are free again |
| Vma.Users.DestroyFirst | mm/vma.c:113-123 | an area goes with all its frames |
| Vma.Users.DestroyAll | mm/vma.c:171-182 | every frame of the process is free again, and no other process is touched |
| Vma.Users.Resize | mm/vma.c:277-318 | exactly a lazy area is resized: it grows if that meets no other area, or shrinks and frees its tail; other areas are unchanged; all areas stay in user space if and only if the new end does |
| Vma.Users.Duplicate | mm/vma.c:229-256 | the child sees the parent's contents of an area, on frames of its own; it fails only for want of frames or kernel memory, or if the child has an area there |
| Vma.Users.Fork | kernel/task.c:464-526 | the child sees exactly what the parent sees, on disjoint frames and with the same areas and flags, and the parent is unchanged; it fails only for want of frames or kernel memory |
| Vma.Users.PageFor | kernel/uaccess.c:71-92 | the page that a read of any address sees: by the tables, which use 39 bits, or zeros where an area, by the whole address, has none yet; exactly when the lookup panics |
| Vma.Users.Reach | kernel/uaccess.c:53-68 | a page that tables or areas have for the address is made present if a frame is left; nothing any process sees changes; exactly when the lookup panics |
| Vma.Users.StoreKernel | kernel/uaccess.c:42-51 | a store through the kernel half changes exactly the frame that it maps, if that is memory |
| Vma.Users.CopyFrom | kernel/uaccess.c:119-144 | for every address: the bytes that tables and areas lead to, up to the first there is not, and whether that one is a panic; in user space the bytes that the process sees |
| Vma.Users.CopyTo | kernel/uaccess.c:146-170 | for every address: the bytes are written page by page where the tables lead; in user space the process sees them and every other byte of every process is as it was; in the kernel half they go exactly where its mappings lead; across the border first the one, then the other; it stops only where a byte is missing or no frame is left |
| Vma.CopiesUser | kernel/uaccess.c:146-170 | pieces written page by page in user space are the bytes at the address and nothing else |
| Vma.CopiesKernel | kernel/uaccess.c:146-170 | pieces written page by page in the kernel half go, byte by byte, to the frames it maps |
| Vma.CopiesAcross | kernel/uaccess.c:146-170 | a copy across the end of user space is one in user space followed by one in the kernel half |
| Vma.CopyReachesOthers | kernel/uaccess.c:146-170 | a run: through the direct mapping a process reads and changes a byte of another one |
| Vfs.GetStep | fs/vfs.c:85-98 | `_dflc_get` on the way up moves the one missing count to the parent |
| Vfs.DownStep | fs/vfs.c:196-200 | a handle that enters a cached child keeps every count |
| Vfs.UpStep | fs/vfs.c:101-122 | a handle that goes to the parent keeps every count |
| Vfs.FreeStep | fs/vfs.c:108-117 | an entry with one count left has no children, and freeing it keeps tree and counts |
| Vfs.AddStep | fs/vfs.c:166-174 | a handle that enters a new entry keeps tree and counts |
| Vfs.HeldBelow | fs/vfs.c:85-146 | every cached entry but the root has a handle at or below it |
| Vfs.FreedIfUnheld | fs/vfs.c:100-122 | a handle that leaves an entry frees it if and only if no other handle is at or below it |
| VfsPath.PathFinds | fs/vfs.c:259-335 | the path of an entry leads to it exactly if its ancestors are directories |
| VfsPath.RealPathLeadsBack | fs/vfs.c:359-409 | looking up the real path gives the entry back if and only if the path is short enough and runs through directories |
| VfsPath.CachedDecides | fs/vfs.c:259-335 | on cached entries a lookup goes where the entries lead, whatever the file systems answer |
| VfsWalk.StandsPush | fs/vfs.c:202-251 | an entry that a lookup makes hangs below the place where it stood, and without it the cache is as it was |
| VfsWalk.StandsHeld | fs/vfs.c:259-335 | nothing else holds an entry that a lookup made, and something else holds every cached entry that it stands at |
| VfsWalk.PutStands | fs/vfs.c:124-146 | a handle that goes takes along all that was made for it, and nothing else |
| VfsCode.Make | fs/vfs.c:202-247 | for every table of operations and every request: which answer decides, with which error, and when the table is read although it is missing |
| VfsCode.Cache.constructor | fs/vfs.c:64-73 | the root alone, with its own reference |
| VfsCode.Cache.Climb | fs/vfs.c:91-98 | after the climb no count is missing |
| VfsCode.Cache.Dup | fs/vfs.c:153-156 | one more handle, the same entries |
| VfsCode.Cache.PutOne | fs/vfs.c:100-122 | the handle goes to the parent or leaves the root; the entry is freed exactly if that was its last count |
| VfsCode.Cache.Put | fs/vfs.c:124-146 | the handle is gone, no count was zero on the way, and exactly the entries without a count are |
| VfsCode.Cache.LookupNext | fs/vfs.c:182-257 | a cached child is found; otherwise an entry is made exactly if the operations answer, as what they answer, and their error is returned else |
| VfsCode.Cache.Ascend | fs/vfs.c:296-306 | ".." leads to the parent, and ends an entry that was made |
| VfsCode.Cache.Descend | fs/vfs.c:308-314 | a name leads to the cached child or to what the file system answers |
| VfsCode.Cache.Abandon | fs/vfs.c:332-334 | after a failed lookup the handle is gone, and the cache is as it was before |
| VfsCode.Cache.StepTo | fs/vfs.c:284-328 | one component moves the handle as the reference step says, or fails with its error and leaves the cache as it was |
| VfsCode.Cache.LookupAt | fs/vfs.c:259-335 | for every path, every request and every answer of the file systems: the result of the reference lookup, past missing directories too, with one handle more where it leads; after an error no handle, and the cache as it was |
| VfsCode.Cache.WritePath | fs/vfs.c:359-389 | writes the text of the nearest ancestor-or-self that fits |
| VfsCode.Cache.RealPathOf | fs/vfs.c:391-409 | the real path, or the error for a text of exactly the buffer's size |
| VfsCode.Cache.Mkdir | fs/vfs.c:411-422 | answers exactly as the lookup that makes a directory; afterwards nothing is held and the cache is as it was |
| VfsCode.Cache.Mount | fs/vfs.c:465-513 | exactly when it is refused and why: the lookup's error, another handle at or below the mountpoint, a mountpoint already, the file system's error; success leaves one pin; the counts hold unless a mount on the root fails |
| VfsCode.TwoHandles | fs/vfs.c:483-487 | the count that mounting tests is two exactly if no other handle is at or below the entry |
| VfsCode.RemountTakesRoot | fs/vfs.c:465-513 | a new cache whose root is mounted twice: the second mount is refused, and the root's own reference is gone |
| VfsCode.LongPathIsCut | fs/vfs.c:359-409 | two nested directories with names of 40 characters: the real path of the inner one leads to the outer |
| Fdt.NextTok | lib/libfdt/fdt.c:162-221 | over a token, the walk gives its tag and the offset of the next |
| Fdt.NextInRow | lib/libfdt/fdt.c:162-221 | the walk over a row of tokens visits them in order |
| FdtTree.TreeUnique | lib/libfdt/fdt_sw.c:219-248 | two trees written by the same calls are the same tree |
| FdtTree.RowsAgree | lib/libfdt/fdt.c:162-221 | two readings of a finished blob agree on every token, names and values included |
| FdtTree.BlobIsOneTree | lib/libfdt/fdt_sw.c:337-384 | a finished blob holds one tree of names, nesting and values at most: the one that was written |
| FdtCode.Blob.constructor | lib/libfdt/fdt_sw.c:109-141 | an empty blob in the structure state |
| FdtCode.Blob.Grab | lib/libfdt/fdt_sw.c:94-107 | grants space exactly if structure and strings stay apart |
| FdtCode.Blob.BeginNode | lib/libfdt/fdt_sw.c:219-234 | appends the token exactly if there is room, else changes nothing |
| FdtCode.Blob.EndNode | lib/libfdt/fdt_sw.c:236-248 | appends the token exactly if there is room, else changes nothing |
| FdtCode.Blob.FindString | lib/libfdt/fdt.c:315-325 | a place where the string stands, or none if it stands nowhere |
| FdtCode.Blob.AddString | lib/libfdt/fdt_sw.c:250-265 | the string stands below the others, and everything written stays; refused if the structure leaves no room, and stored in front of the blob exactly if it is longer than all that the blob has left of strings |
| FdtCode.Blob.NameOffset | lib/libfdt/fdt_sw.c:276-306 | an offset at which the name stands, shared or new; which of the three cases, exactly |
| FdtCode.Blob.Property | lib/libfdt/fdt_sw.c:293-335 | appends the property with its name and value; after an error the name is rolled back; exactly when the name goes astray |
| FdtCode.LongNameAstray | lib/libfdt/fdt_sw.c:250-265 | a name of 200 bytes in a blob of 100 is not refused |
| FdtCode.Blob.NextTag | lib/libfdt/fdt.c:162-221 | the specified step, on any blob, without reading outside it |
| FdtCode.Blob.Finish | lib/libfdt/fdt_sw.c:337-384 | the blob holds the same tokens, terminated, with the strings behind them and all name offsets right |
| FdtCode.Blob.FixOffsets | lib/libfdt/fdt_sw.c:359-372 | the loop rewrites every property's offset once and nothing else |
| FdtCode.Blob.GetString | lib/libfdt/fdt_ro.c:34-98 | the text up to its NUL, in finished blobs and in those being written; none exactly if the offset is outside the strings or no NUL follows in the block |
| FdtCode.Blob.NextProp | lib/libfdt/fdt_ro.c:201-223 | the specified search, on any blob |
| FdtCode.Blob.FindProp | lib/libfdt/fdt_ro.c:397-425 | the first property of the node with that name, or an error if it has none |
| FdtCode.Blob.GetProp | lib/libfdt/fdt_ro.c:452-468 | the value that was written for that name, or none |
| FdtCode.Blob.NextNode | lib/libfdt/fdt.c:247-285 | the next node with its depth, the end of the node that was left, or the end of the tree |
| FdtReader.TreeLevel | lib/libfdt/fdt.c:247-285 | between the tokens of a node the depth is at least one, behind them nought |
| FdtReader.NextInside | lib/libfdt/fdt.c:247-285 | a walk from a node inside a tree goes to the next node inside, and from the last one to what follows the tree |
| FdtReader.FirstSubnode | lib/libfdt/fdt.c:287-296 | the first child, or an error if there is none |
| FdtReader.NextSubnode | lib/libfdt/fdt.c:298-313 | the next sibling, past everything below the node, or an error behind the last |
| FdtReader.GetName | lib/libfdt/fdt_ro.c:303-339 | the name of the node |
| FdtReader.GetPropAt | lib/libfdt/fdt_ro.c:470-501 | the name and the value of the property |
| FdtReader.ReadProps | lib/libfdt/fdt_ro.c:341-357 | the properties of the node in order, and no others |
| FdtReader.ReadNode | lib/libfdt/fdt.c:287-313 | the whole tree below a node, read by way of names, properties and subnodes |
| FdtReader.ReadTree | lib/libfdt/fdt.c:287-313 | a finished blob reads as the tree whose calls wrote it |
| FdtReader.RoundTrip | lib/libfdt/fdt_sw.c:219-384 | writing a tree call by call, finishing the blob and reading it gives the tree back, if there is room |
| Div64.Xprod | common/include/grinch/div64.h:181-219 | exactly (m * n + bias * m) / 2^64, in 64-bit steps |
| Div64.HighHalf | common/include/grinch/div64.h:99-106 | the test product is the high half of m * x |
| Div64.UpWorks | common/include/grinch/div64.h:92-106 | if the one test value passes, the rounded-up reciprocal is right for every 64-bit dividend |
| Div64.DownWorks | common/include/grinch/div64.h:115-127 | if it fails, the biased rounded-down one is right for every 64-bit dividend |
| Div64.SpecialWorks | common/include/grinch/div64.h:109-114 | the special reciprocal is right when the odd part divides 2^64 - 1 |
| Div64.ReducePair | common/include/grinch/div64.h:129-150 | the reduction of the reciprocal divides m and p by a common power of two |
| Div64.DivUp | common/include/grinch/div64.h:129-168 | the reduced reciprocal gives the same quotient |
| Div64.DivConst | common/include/grinch/div64.h:75-168 | n / b for every 64-bit n and every 32-bit b that is no power of two |
| Div64.DivRem | common/src/div64.c:26-57 | exact quotient and remainder, by doubling and subtracting in 64 bits |
| Text.ShiftIsDivision | common/src/vsprintf.c:130-195 | the multiply-and-shift steps are divisions by 100 on their ranges |
| Text.PutFull8 | common/src/vsprintf.c:171-195 | exactly eight digits of that value |
| Text.PutTrunc8 | common/src/vsprintf.c:130-169 | the digits of the value without leading zeros |
| Text.PutDec | common/src/vsprintf.c:197-207 | the decimal digits of every 64-bit value |
| Text.ToDigits | common/src/vsprintf.c:212-331 | the digits of the value in base 8, 10 or 16 |
| Text.Number | common/src/vsprintf.c:212-331 | the specified layout with sign, prefix and padding, cut to the room, and its whole length; sign and digits are the number in two's complement |
| Text.ParseInteger | common/src/strtox.c:24-61 | the digits that follow, their value, and whether it exceeded 64 bits |
| Text.Strntoull | common/src/strtox.c:80-103 | the specified reading |
| Text.RoundTrip | common/src/strtox.c:80-103 | in its own base a printed number reads back as itself if and only if no sign or space comes first, or it is nought |
| Text.ReadAuto | common/src/strtox.c:63-78 | with the base left to the reader: what is read, in every case |
| Text.RoundTripAuto | common/src/strtox.c:63-78 | then it reads back if and only if no sign or space comes first and the guessed base is its own or it has one digit in both, for octal digits that as decimal ones stay within 64 bits |
| Text.OctalCoincides | common/src/strtox.c:24-61 | an octal number that read as a decimal one wraps around to itself |
| Smp.StepKeeps | kernel/smp.c:113-160 | every step keeps the count of what ran where, the slots and the interrupts in order |
| Smp.RanOnceEverywhere | kernel/smp.c:127-160 | a call that returned ran exactly once on every CPU, and no CPU holds its argument |
| Smp.NeverTwice | kernel/smp.c:113-125 | at no time has a call run twice on a CPU |
| Smp.WorkShrinks | kernel/smp.c:113-160 | every step of a call that has begun, and every interrupt taken, leaves strictly less to be done |
| Smp.AloneReturns | kernel/smp.c:127-160 | from every reachable state: a call that is alone returns, in any order of steps and within the work that is left |
| Smp.CrossedForever | kernel/smp.c:154-159 | two calls each of which is still to be served by the CPU of the other never return, in any run |
| Smp.BothBegin | kernel/smp.c:127-160 | two steps from the start that lead there |

## Left out

- Paging.PageTables.Create: after an allocation failure it promises sound tables and changes below the given table only, but no translations, because a failure inside a nested split loses some; a table that a root leaf replaces is never released, and what walkers hold of it is not recorded.
- Paging.PageTables.UnmapRange: after an allocation failure translations of leaves may be unflushed; exactly when a single split leaves one is said at `Paging.PageTables.Split`.
- Paging.PageTables.MapRange: flags must contain R, W or X, because the code's leaves read back as table pointers otherwise.
- Tlb.FreshInEveryRun: kernel-half translations, which all roots share, are not part of the cache model.
- Sharing.RootIsAllThatIsLeft: a process with a failed map or unmap is left out, because the code leaves tables half made then.
- Gfp.HandsOutKernelPages: the second area is filled by its bitmap search, as `Gfp.Memory` requires that the kernel's pages are reserved.
- SchedOwner.NeverPanics: the exit of init, which the kernel answers with BUG() (kernel/task.c:194-198), is no step; a virtual machine halts only with an armed timer, and the check at the end of the machine's wait without one is not modelled.
- SchedWait.ExitMisses: an exit is one step, although `task_exit` reads the parent before it takes a lock (kernel/task.c:194), so that the parent may exit in between.
- SchedWait.DeliveredOnce: which of several dead children a wait reaps is left open.
- Div64.DivConst: powers of two, which are divided by shifting, are not part of the macro.
- Text.RoundTripAuto: for octal numbers of more than 64 bits as decimal ones the other half is open; `Text.OctalCoincides` is one that does read back.
- Vma.Users.CreateEager: frames are those of one memory area, and which free run is taken is left open; whether the kernel gets memory for its own records and tables is a parameter.
- Vma.Users.Create: bases are page aligned and addresses are pages; partial states after running out of memory are those of the code's error path.
- VfsCode.Make: the trap on a missing table of operations is an outcome of its own, and what happens after it is not modelled.
- VfsCode.Cache.LookupAt: locks are not modelled; operations are whole, and what file systems and the allocator answer is a parameter.
- FdtCode.Blob.Property: lengths of names stay below 2^31; what a name that goes astray overwrites is not part of the model.
- SallocCode.Heap.Malloc: sizes within two pages and a header of 2^64, where the reported increase wraps around, are left out.
- SallocCode.Heap.Release: keeps the heap sound except for a last chunk behind a free one, where the code does not; pointers lie at least a header above 0.
- FdtCode.Blob.constructor: the header's bytes and the memory reservation map in front of the structure block are left out.
- salloc_realloc, umemset, fdt_resize and fdt_move, which combine what is modelled.
- Smp.AloneReturns: calls that overlap without each being still to be served by the CPU of the other are left open.
- The blocking reader of fs/devfs.c.
- Sv32, Sv48, guest (stage 2) tables and arm64.
- Memory ordering, spinlock instructions and assembly: a locked section is one step, a flush an abstract one.
- Drivers, interrupt controllers, boot, SMP bring-up, the virtual machine monitor, tmpfs, initrd, devfs, the shell.
