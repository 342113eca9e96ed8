# JOS verified

A Dafny model of the JOS teaching kernel, its user library and its file server, with proofs of the
properties these parts rely on. `dafny verify dfyconfig.toml` checks the whole project.

| module | what it models |
|---|---|
| `Environments`, `Paging`, `KernelMemory`, `EnvIds`, `BootMap` | physical pages, reference counts, two-level page tables, environments and the system calls that change them |
| `Sched`, `Smp`, `OneCpu`, `Ipc` | the round-robin scheduler, several CPUs under one kernel lock, waiting on one CPU, messages |
| `CowFork`, `Upcall` | copy-on-write fork and the user page-fault upcall |
| `PipeRing`, `PipeRefs` | pipes: the lock-free ring buffer and end-of-file detection |
| `FileBlocks`, `FileSystem`, `PlainFiles`, `BlockCache`, `Format`, `Server` | the file system, its block cache, its image builder and the open-file table |
| `SpawnImage`, `Sieve`, `Bytes` | the memory of a spawned program, the prime sieve, and bytes in memory |

Code that updates state in place is a class whose methods are proved against functions of the old
state (`KernelMemory.Kernel`, `FileSystem.FileSystem`, `BlockCache.Cache`, `Format.Formatter`,
`Server.OpenTable`, `SpawnImage.Child`) or a method on an array (`BootMap`, the stack page in
`SpawnImage`). Protocols that interleave are step systems: a state, an enabling condition, a next-state
function, an invariant that every step keeps, and a theorem over all runs.

## Findings

Where code and comments differ, the model follows the code.

- A full disk: alloc_block's result is stored unsigned before it is compared with 0
  (fs/fs.c:158-161, fs/fs.c:187-194), so a full disk ends in the panic of diskaddr, not in -E_NO_DISK.
  The model has a `Panic` outcome and says exactly when it happens (`FileGetBlock`, `FileRead`,
  `FileWrite`).
- The scheduler starts its scan at the current slot, not after it (kern/sched.c:37-40), so a decision
  brings a waiting environment closer exactly while the current one is not RUNNABLE (`OneDecision`).
  With one CPU that is so as long as the current environment does not exit or set its own status, and
  waiting is bounded (`BoundedWaiting`); without a current environment the scan restarts at slot 0, and
  an environment can wait for ever (`Starves`, `RestartDecision`).
- sys_env_set_status and sys_ipc_try_send accept any live target, and env_destroy frees a target that
  is already DYING. `StepSafe` gives the exact condition under which a step is safe, `UnguardedStatus` a
  run that violates it, `PoliteStep` the discipline of the library that meets it.
- sys_ipc_recv does not record that no page is wanted (kern/syscall.c:422-431). `PageTransfer` says what
  the code does instead and `UnwantedPage` shows the difference to the comment at kern/syscall.c:317-318.
- A trap-time stack pointer of exactly UXSTACKTOP is not recognised as a recursive fault
  (kern/trap.c:434), and the scratch word then overwrites the saved stack pointer (`TailExact`).
- _pipeisclosed re-reads env_runs, which is enough on one CPU (`AnswerSound`) and not on two
  (`SecondCpuMisleads`). `AnswerExact` says when a true answer is right on any number of CPUs.
- fsformat without any input file gives the root directory a block that is marked free
  (fs/fsformat.c:172-175); `Build` shows that this is the only such case.
- fsformat allocates an indirect block for a file of exactly NDIRECT blocks (fs/fsformat.c:142).
- duppage maps a PTE_SHARE page with PTE_W whatever its own rights (lib/fork.c:97-116), so fork panics
  on one that is not writable, and only there (`ForkCanGoOn`).
- File ids above 2^31 are taken for errors by serve_open (`NegativeIds`).

## Model

| member | source | states |
|---|---|---|
| `CowFork.StepRefines` | sisop_2020b_g06_delpino_romero-main/lib/fork.c:14-127 | one step of the copy-on-write machine, in any state of the invariant, keeps the invariant and is exactly the step of the copying machine that its label names (the copy of a page takes effect at the first sys_page_map of duppage, or at the second one when the parent could still write the page in between) |
| `CowFork.RunRefines` | sisop_2020b_g06_delpino_romero-main/lib/fork.c:190-281 | after every interleaving of stores, page faults, allocations, nested forks and exits of any number of environments, every environment reads exactly what it would read had fork copied every page; PTE_SHARE pages stay common |
| `CowFork.SnapshotKept` | sisop_2020b_g06_delpino_romero-main/lib/fork.c:219-263 | over any stretch of a run in which a fork goes on, with any steps of any environments in between, every page already given to the child equals the parent's page, unless the parent has stored to that page since it was copied; the exception stack given to the child stays a fresh page |
| `CowFork.SparedCopy` | sisop_2020b_g06_delpino_romero-main/lib/fork.c:219-263 | in the copying machine, a step that touches no page of the child, and of the parent at most by a store, keeps every page of the child a copy but for the page stored to |
| `CowFork.ForkIsSpared` | sisop_2020b_g06_delpino_romero-main/lib/fork.c:219-263 | every step of every environment during a fork is such a step, and the fork goes on until its last step |
| `CowFork.ForkStartsEmpty` | sisop_2020b_g06_delpino_romero-main/lib/fork.c:200-216 | a fork starts with nothing copied |
| `CowFork.ForkComplete` | sisop_2020b_g06_delpino_romero-main/lib/fork.c:247-275 | the last step of fork changes nothing that is seen, and the child then has a page exactly where the parent has one, and a writable exception stack |
| `CowFork.ForkSnapshot` | sisop_2020b_g06_delpino_romero-main/lib/fork.c:190-281 | a whole fork, from its first step to its last, with anything going on in between: the child becomes runnable with a page exactly where its parent has one, with the same bytes and rights unless the parent has stored to that page since its copy, and with a fresh zero page of its own as exception stack |
| `CowFork.StartInv` | sisop_2020b_g06_delpino_romero-main/lib/fork.c:190-198 | a single environment whose pages are its own satisfies the invariant, so the runs above exist |
| `CowFork.WriteStep` | sisop_2020b_g06_delpino_romero-main/lib/fork.c:14-42 | a store reaches the bytes of no environment but the writer and those that share the page with it |
| `CowFork.FaultMapStep` | sisop_2020b_g06_delpino_romero-main/lib/fork.c:52-70 | moving the filled private page into place changes no byte that any environment reads |
| `CowFork.StoreGoesThrough` | sisop_2020b_g06_delpino_romero-main/lib/fork.c:14-70 | a store that the rights of a page permit is possible at once, or the whole handler (allocate, copy 4096 bytes, map, unmap) can run from here and the store is possible at its end |
| `CowFork.HandlerReturns` | sisop_2020b_g06_delpino_romero-main/lib/fork.c:45-70 | with any steps of other environments in between: a handler takes at most its remaining steps, and when it has taken them the faulting environment can write the page |
| `CowFork.HandlerEnabled` | sisop_2020b_g06_delpino_romero-main/lib/fork.c:45-70 | a handler that has not returned can always take its next step |
| `CowFork.OthersLeave` | sisop_2020b_g06_delpino_romero-main/lib/fork.c:14-127 | a step of one environment changes neither the progress nor a page-table entry of another one that runs |
| `CowFork.ForkCanGoOn` | sisop_2020b_g06_delpino_romero-main/lib/fork.c:97-116 | the next step of a fork is possible, given a free page, if and only if the page at hand is not a PTE_SHARE page that the parent cannot write: sys_page_map refuses PTE_W then, and duppage panics |
| `CowFork.ForkMapStep` | sisop_2020b_g06_delpino_romero-main/lib/fork.c:97-116 | mapping a page in the child copies its bytes, or nothing yet when the parent can still write the page |
| `CowFork.ForkRemapStep` | sisop_2020b_g06_delpino_romero-main/lib/fork.c:118-125 | taking PTE_W from the parent completes the copy and keeps the sharing discipline |
| `CowFork.ForkLoadStep` | sisop_2020b_g06_delpino_romero-main/lib/fork.c:235-262 | looking at the next page changes nothing, except that the exception stack of the child becomes a fresh zero page |
| `CowFork.ExitStep` | sisop_2020b_g06_delpino_romero-main/kern/env.c:447-494 | an exit removes the pages of that environment and changes what no other environment reads |
| `CowFork.OtherFork` | sisop_2020b_g06_delpino_romero-main/lib/fork.c:219-263 | a step of one fork leaves the progress of every other fork intact |
| `Paging.WritePte` | sisop_2020b_g06_delpino_romero-main/kern/pmap.c:581-606 | a store into one page-table entry changes the translation of exactly one page of one environment and moves exactly one counted reference |
| `Paging.HangTable` | sisop_2020b_g06_delpino_romero-main/kern/pmap.c:495-509 | hanging a zeroed page into an empty directory entry changes no translation and adds one reference |
| `Paging.ClearPde` | sisop_2020b_g06_delpino_romero-main/kern/env.c:471-482 | clearing a directory entry whose table maps nothing removes one reference and leaves every other environment alone |
| `Paging.SetDir` | sisop_2020b_g06_delpino_romero-main/kern/env.c:160-196 | a new directory shares the kernel half, maps itself at UVPT and nothing below UTOP, and changes no translation |
| `Paging.DropDir` | sisop_2020b_g06_delpino_romero-main/kern/env.c:485-488 | giving up a directory without tables removes one reference and changes no other environment |
| `Paging.TablesDistinct` | sisop_2020b_g06_delpino_romero-main/kern/pmap.c:478-514 | with one reference to every directory and table, no table serves two directory entries and none is a directory |
| `Paging.WriteData` | sisop_2020b_g06_delpino_romero-main/kern/pmap.c:421-423 | a write to a page that is neither directory nor table changes no reference and no translation |
| `Paging.GoneRefs` | sisop_2020b_g06_delpino_romero-main/kern/env.c:447-494 | once an environment has lost its directory and the others kept theirs, exactly its references are gone |
| `Paging.BadPermBits` | sisop_2020b_g06_delpino_romero-main/inc/mmu.h:58-73 | the permissions a system call refuses are exactly those with a bit outside PTE_SYSCALL |
| `KernelMemory.PageInit` | sisop_2020b_g06_delpino_romero-main/kern/pmap.c:324-395 | the free list is acyclic and duplicate-free and holds exactly the pages that are not page 0, not page 7, not in the I/O hole and not handed out by boot_alloc, highest first; these have pp_ref 0 and the others 1 |
| `KernelMemory.Kernel.Boot` | sisop_2020b_g06_delpino_romero-main/kern/env.c:114-127 | after page_init and env_init the whole invariant holds and every environment slot is free, in order |
| `KernelMemory.Kernel.PageAlloc` | sisop_2020b_g06_delpino_romero-main/kern/pmap.c:409-425 | takes the head of the free list, or fails exactly when it is empty; the page has no reference, and no translation changes |
| `KernelMemory.Kernel.PageFree` | sisop_2020b_g06_delpino_romero-main/kern/pmap.c:431-443 | puts an unreferenced page back at the head of the free list |
| `KernelMemory.Kernel.PageDecref` | sisop_2020b_g06_delpino_romero-main/kern/pmap.c:449-454 | gives up one reference; the page returns to the free list exactly when it was the last |
| `KernelMemory.Kernel.PgdirWalk` | sisop_2020b_g06_delpino_romero-main/kern/pmap.c:478-514 | finds the page table of an address, creating it when asked; fails exactly when there is none and it may not or cannot create one; no translation changes |
| `KernelMemory.Kernel.PageLookup` | sisop_2020b_g06_delpino_romero-main/kern/pmap.c:619-637 | the entry that translates an address, or none when it is not present |
| `KernelMemory.Kernel.PageInsert` | sisop_2020b_g06_delpino_romero-main/kern/pmap.c:581-606 | as an operation on a finite map from virtual page to (page, permissions): success changes exactly one entry, failure none, and it fails exactly when a page table is missing and no page is free; also when the same page is inserted again at the same address, its contents and its place outside the free list survive; no data page in use changes |
| `KernelMemory.Kernel.TakeOver` | sisop_2020b_g06_delpino_romero-main/kern/pmap.c:593-600 | counting the new reference before removing the old mapping keeps a page that is re-inserted from being freed; no data page changes |
| `KernelMemory.Kernel.StorePte` | sisop_2020b_g06_delpino_romero-main/kern/pmap.c:602-603 | the final store turns the counted reference into an entry |
| `KernelMemory.Kernel.PageRemove` | sisop_2020b_g06_delpino_romero-main/kern/pmap.c:654-676 | clears exactly one entry and one reference, and data pages keep their contents |
| `KernelMemory.Kernel.EnvSetupVm` | sisop_2020b_g06_delpino_romero-main/kern/env.c:160-196 | a new address space changes no translation; fails exactly when no page is free |
| `KernelMemory.Kernel.EnvAlloc` | sisop_2020b_g06_delpino_romero-main/kern/env.c:206-269 | takes the first free slot under its next id, not receiving, or reports which resource is missing and changes no slot; other environments keep their translation |
| `KernelMemory.Kernel.UnmapTable` | sisop_2020b_g06_delpino_romero-main/kern/env.c:474-478 | the inner loop of env_free leaves no present entry behind one page table |
| `KernelMemory.Kernel.FreeTables` | sisop_2020b_g06_delpino_romero-main/kern/env.c:465-483 | the outer loop leaves no page table, and does not touch other environments |
| `KernelMemory.Kernel.EnvFree` | sisop_2020b_g06_delpino_romero-main/kern/env.c:447-494 | exactly the references of that environment disappear, every page that only it referred to is on the free list again, every other environment keeps directory, tables and translation, and no data page changes |
| `KernelMemory.Kernel.SysPageAlloc` | sisop_2020b_g06_delpino_romero-main/kern/syscall.c:194-221 | each error exactly under its condition, -E_NO_MEM when there is no free page, or a single one and the page table is missing; success maps one zeroed, formerly free page with the given permissions; no other translation and no data page in use changes |
| `KernelMemory.Kernel.SysPageMap` | sisop_2020b_g06_delpino_romero-main/kern/syscall.c:239-273 | each error exactly under its condition, -E_NO_MEM when the page table is missing and no page is free; success makes one entry of the destination name the page the source maps; no data page in use changes |
| `KernelMemory.Kernel.SysPageUnmap` | sisop_2020b_g06_delpino_romero-main/kern/syscall.c:282-296 | each error exactly under its condition; success clears one entry; no data page in use changes |
| `KernelMemory.Kernel.SysExofork` | sisop_2020b_g06_delpino_romero-main/kern/syscall.c:78-96 | fails exactly when no environment slot or no page is free, with the error that says which; otherwise a new child, not runnable and not receiving, whose id names its slot, whose parent is the caller, and whom the caller reaches under that id from now on; no translation and no data page in use changes |
| `KernelMemory.Kernel.SysEnvDestroy` | sisop_2020b_g06_delpino_romero-main/kern/syscall.c:51-65 | a target running elsewhere is only marked and keeps its address space; any other loses its address space and its slot; no data page changes |
| `KernelMemory.Kernel.SysIpcTrySend` | sisop_2020b_g06_delpino_romero-main/kern/syscall.c:336-404 | each error exactly under its condition; the receiver wakes exactly on success, with value, sender and permissions in its fields, and one new entry at the address it last asked for when the sender offers a page; no data page in use changes |
| `KernelMemory.Kernel.SysIpcRecv` | sisop_2020b_g06_delpino_romero-main/kern/syscall.c:417-444 | blocks the caller unless the address is below UTOP and not page-aligned; the stored address is always a page address below UTOP |
| `KernelMemory.Kernel.UserStore` | sisop_2020b_g06_delpino_romero-main/kern/pmap.c:619-637 | a store by user code succeeds exactly through a present, writable user entry, and the rights of the directory entry never stand in its way; it changes one word of one data page, and never a page table or directory |
| `KernelMemory.Kernel.CountAgreement` | sisop_2020b_g06_delpino_romero-main/inc/memlayout.h:178-188 | pp_ref of a page is the number of env_pgdirs, user directory entries and user page-table entries that name it, and the page is on the free list exactly when none does |
| `KernelMemory.Kernel.SysEnvSetStatus` | sisop_2020b_g06_delpino_romero-main/kern/syscall.c:105-123 | each error exactly under its condition; success changes the status of one environment, whatever it was |
| `KernelMemory.Kernel.EnvRun` | sisop_2020b_g06_delpino_romero-main/kern/env.c:576-585 | the environment becomes RUNNING, and the current one RUNNABLE if it was RUNNING |
| `KernelMemory.Kernel.Reap` | sisop_2020b_g06_delpino_romero-main/kern/trap.c:349-354 | an environment found DYING on its own CPU is freed as by env_free; any other stays |
| `KernelMemory.Kernel.Step` | sisop_2020b_g06_delpino_romero-main/kern/syscall.c:446-488 | every call, dispatch, reap or user store keeps the whole invariant, affects data as Isolation needs it, touches only slots it is entitled to, makes no page in use writable that was not, and sets no bit outside PTE_SYSCALL |
| `KernelMemory.Kernel.Run` | sisop_2020b_g06_delpino_romero-main/kern/syscall.c:446-488 | after every sequence of page, environment and message system calls, dispatches, reaps and user stores the whole invariant holds and CountAgreement is true of every page that is not reserved; and the run is a trace to which Isolation, LeftAlone, StaysReadOnly and OnlySyscallBits apply |
| `KernelMemory.Isolation` | sisop_2020b_g06_delpino_romero-main/kern/pmap.c:581-676 | in every run, as long as some environment maps a page, its contents change only by stores of environments that map it |
| `KernelMemory.Kernel.EnvNames` | sisop_2020b_g06_delpino_romero-main/kern/env.c:72-106 | what an id means to a caller, said without envid2env: 0 is the caller, any other the live slot of that id if it is the caller or a child of the caller; envid2env with the permission check finds exactly that slot, and fails exactly when there is none |
| `KernelMemory.LeftAlone` | sisop_2020b_g06_delpino_romero-main/kern/env.c:94-102 | in every run, the status and the address space of a slot change only by calls of itself or its parent, by a send while it receives, or by its dispatch |
| `KernelMemory.StaysReadOnly` | sisop_2020b_g06_delpino_romero-main/kern/syscall.c:264-268 | in every run, a page that no environment maps writable stays so as long as it is in use |
| `KernelMemory.OnlySyscallBits` | sisop_2020b_g06_delpino_romero-main/kern/syscall.c:263-265 | in every run that starts so, no user page-table entry ever has a bit outside PTE_SYSCALL |
| `KernelMemory.HandleResolves` | sisop_2020b_g06_delpino_romero-main/kern/env.c:72-106 | an id issued at the j-th allocation of a slot resolves exactly when the slot is in use and has been allocated a multiple of 2^19 - 1 times since; a stale id is rejected throughout that window |
| `EnvIds.NextIdCarriesSlot` | sisop_2020b_g06_delpino_romero-main/kern/env.c:220-224 | whatever id the slot had, the next one is positive and carries the slot number |
| `EnvIds.IdClosedForm` | sisop_2020b_g06_delpino_romero-main/kern/env.c:220-224 | the k-th id of a slot in closed form, through the 32-bit overflow and the restart of the generation |
| `EnvIds.IdEncodesSlot` | sisop_2020b_g06_delpino_romero-main/kern/env.c:220-224 | ids are positive and name their slot, so ids of different slots differ |
| `EnvIds.IdsRepeat` | sisop_2020b_g06_delpino_romero-main/kern/env.c:220-224 | two ids of one slot are equal if and only if a multiple of 2^19 - 1 allocations lies between them |
| `BootMap.MapRegion` | sisop_2020b_g06_delpino_romero-main/kern/pmap.c:527-554 | the 4 KiB variant translates [va, va+size) to [pa, pa+size) with the given rights and leaves every other page alone |
| `BootMap.MapRegionPse` | sisop_2020b_g06_delpino_romero-main/kern/pmap.c:539-552 | the 4 MiB variant does the same, for every page, whatever mix of page sizes it uses |
| `BootMap.Compare` | sisop_2020b_g06_delpino_romero-main/kern/pmap.c:1039-1053 | from equal directories without 4 MiB entries in the range, both variants leave the same translation for every page of the address space |
| `Sched.Scan` | sisop_2020b_g06_delpino_romero-main/kern/sched.c:31-43 | the loop finds the first RUNNABLE slot in circular order, or none exactly when nothing is RUNNABLE |
| `Sched.PickIsFirst` | sisop_2020b_g06_delpino_romero-main/kern/sched.c:38-43 | the choice is determined by that description alone |
| `Sched.OneDecision` | sisop_2020b_g06_delpino_romero-main/kern/sched.c:31-43 | one decision dispatches a waiting environment or brings the scan strictly closer to it, if and only if the current environment is not itself RUNNABLE (the scan starts at the current slot, not after it) |
| `OneCpu.ChooseStep` | sisop_2020b_g06_delpino_romero-main/kern/sched.c:31-48 | a decision on a CPU with a current environment that is not RUNNABLE dispatches a waiting environment or comes strictly closer to it |
| `OneCpu.OtherStep` | sisop_2020b_g06_delpino_romero-main/kern/trap.c:320-378 | every other step leaves the current environment in place and not RUNNABLE, unless that environment exits or sets its own status |
| `OneCpu.ClosingStep` | sisop_2020b_g06_delpino_romero-main/kern/sched.c:11-49 | while an environment waits, decisions so far plus its distance from the current slot never exceed its first distance |
| `OneCpu.BoundedWaiting` | sisop_2020b_g06_delpino_romero-main/kern/sched.c:11-49 | in any segment of a run on one CPU in which the current environment never exits or sets its own status, an environment that stays RUNNABLE is dispatched within as many decisions as its circular distance from the current slot, hence within NENV - 1 |
| `OneCpu.SegmentOfRun` | sisop_2020b_g06_delpino_romero-main/kern/sched.c:11-49 | every part of a run from the initial state that starts with a current environment is such a segment |
| `OneCpu.NoSendToSelf` | sisop_2020b_g06_delpino_romero-main/kern/syscall.c:349-352 | with the discipline of the library nobody sends to itself, so nothing else is excluded |
| `OneCpu.Starves` | sisop_2020b_g06_delpino_romero-main/kern/sched.c:34-37 | for every m a run on one CPU from the initial state, within the discipline of the library, with at least m decisions, in which slot 2 is RUNNABLE all the time and never current: slot 0 forks a child and yields, the child exits, and the scan restarts at slot 0 |
| `OneCpu.RestartDecision` | sisop_2020b_g06_delpino_romero-main/kern/sched.c:34-43 | a decision without a current environment dispatches an environment if and only if no slot below it is RUNNABLE |
| `Smp.StepSafe` | sisop_2020b_g06_delpino_romero-main/kern/trap.c:320-378 | a step of any CPU keeps the multiprocessor invariant if and only if it respects the guard: no sys_env_set_status or send at an environment current on another CPU, and no second destroy of one that is DYING there |
| `Smp.Safety` | sisop_2020b_g06_delpino_romero-main/kern/spinlock.c:60-116 | in every reachable state at most one CPU is in the kernel, every kernel entry has acquired the lock exactly once, no environment is current on two CPUs, and while the lock is free an environment is RUNNING or DYING exactly when it is current on a CPU |
| `Smp.RunMonitor` | sisop_2020b_g06_delpino_romero-main/kern/sched.c:58-80 | in every reachable state, a CPU is in the monitor with the lock only if no environment is RUNNABLE, RUNNING or DYING, and goes to sleep only if one is |
| `Smp.SomeoneMoves` | sisop_2020b_g06_delpino_romero-main/kern/spinlock.c:60-116 | in every reachable state with such an environment some CPU can take a step that is not another turn of the spin loop |
| `Smp.ShortVisit` | sisop_2020b_g06_delpino_romero-main/kern/trap.c:320-378 | a stay in the kernel takes at most six steps of its CPU, whatever the others do |
| `Smp.VisitEnds` | sisop_2020b_g06_delpino_romero-main/kern/sched.c:73-83 | the last of these steps gives the lock back; a CPU that cannot go on is in the monitor, with nothing to run on any CPU |
| `Smp.KeepsCpu` | sisop_2020b_g06_delpino_romero-main/kern/trap.c:366-377 | over every run, an environment keeps its CPU through all traps and system calls until it yields or receives there or is the target of a call |
| `Smp.ReceiverWaits` | sisop_2020b_g06_delpino_romero-main/kern/syscall.c:432-443 | over every run, an environment that receives waits until it is the target of a call, and every environment served on any CPU can send to it meanwhile, which makes it RUNNABLE |
| `Smp.InitInv` | sisop_2020b_g06_delpino_romero-main/kern/spinlock.c:60-79 | the state in which the boot CPU enters the scheduler and the others wait satisfies the invariant |
| `Smp.RunInv` | sisop_2020b_g06_delpino_romero-main/kern/trap.c:320-378 | every state of every guarded run satisfies the invariant |
| `Smp.QuietStep` | sisop_2020b_g06_delpino_romero-main/kern/trap.c:332-346 | taking a trap, one xchg on the lock flag and releasing it keep the invariant: a CPU waiting for the lock never acquires it twice |
| `Smp.RunStep` | sisop_2020b_g06_delpino_romero-main/kern/env.c:551-597 | env_run of a RUNNABLE environment, or of the current one, keeps the invariant |
| `Smp.ClearStep` | sisop_2020b_g06_delpino_romero-main/kern/trap.c:349-354 | freeing a zombie and halting a CPU keep the invariant (what a halting CPU does with the lock is in RunMonitor) |
| `Smp.SwitchStep` | sisop_2020b_g06_delpino_romero-main/kern/sched.c:44-48 | the end of trap and sched_yield keep the invariant |
| `Smp.UnsafeOp` | sisop_2020b_g06_delpino_romero-main/kern/syscall.c:105-123 | outside the guard the invariant is always lost |
| `Smp.PoliteStep` | sisop_2020b_g06_delpino_romero-main/lib/fork.c:273-275 | the library stays within the guard: status changes of children that have not run yet and single destroys keep every step safe, sends included |
| `Smp.PoliteSafety` | sisop_2020b_g06_delpino_romero-main/kern/spinlock.c:60-116 | every run in which callers keep to that discipline is a guarded run, and all its states are safe in the sense of Safety |
| `Smp.UnguardedStatus` | sisop_2020b_g06_delpino_romero-main/kern/syscall.c:105-123 | a run from the initial state, one sys_env_set_status outside the guard and every other step within it, at whose end two CPUs run the same environment |
| `Ipc.ExactlyOnce` | sisop_2020b_g06_delpino_romero-main/kern/syscall.c:336-444 | after every step of every run in which nobody makes a waiting receiver runnable, the receives of an environment that have returned found the messages of the successful sends to it, in order and each once, at most one more has arrived, and value, sender and permissions stay until the next receive |
| `Ipc.ReceiverReturns` | sisop_2020b_g06_delpino_romero-main/kern/syscall.c:390-402 | from a successful send on the receive can return, and finds that message, until it does so or somebody changes the status of the receiver or frees it; while it still waits it cannot return |
| `Ipc.SendSucceeds` | sisop_2020b_g06_delpino_romero-main/kern/syscall.c:349-394 | a send without a page succeeds exactly when the target waits; one with a page exactly when in addition the page is aligned, mapped by the sender, with permissions user code may use and no more than the sender has, and memory suffices |
| `Ipc.ForcedReturn` | sisop_2020b_g06_delpino_romero-main/kern/syscall.c:105-123 | that condition is needed: if a waiting receiver is made runnable, its receive can return, and returns a message that nobody sent, whatever happened before |
| `Ipc.DestinationAsked` | sisop_2020b_g06_delpino_romero-main/kern/syscall.c:417-431 | env_ipc_dstva is always page-aligned, below UTOP and the last such address this slot gave to a receive, in this life or an earlier one |
| `Ipc.PageTransfer` | sisop_2020b_g06_delpino_romero-main/kern/syscall.c:354-394 | a successful send maps a page in the receiver exactly when the sender offers one, at that address |
| `Ipc.UnwantedPage` | sisop_2020b_g06_delpino_romero-main/kern/syscall.c:422-431 | a concrete run in which a receiver that asks for no page is given one at address 0 |
| `Upcall.TailRestores` | sisop_2020b_g06_delpino_romero-main/lib/pfentry.S:75-99 | with the frame intact the instruction sequence restores every general register, eflags, eip and esp, and writes only the saved stack pointer and the scratch word |
| `Upcall.TailExact` | sisop_2020b_g06_delpino_romero-main/kern/trap.c:433-441 | the return is exact if and only if the trap-time esp is not UXSTACKTOP itself, or eip happens to be the address of the scratch word |
| `Upcall.EnterIntact` | sisop_2020b_g06_delpino_romero-main/kern/trap.c:448-459 | the pushed frame holds the trap-time state and nothing above it has changed |
| `Upcall.EnterTells` | sisop_2020b_g06_delpino_romero-main/kern/trap.c:448-451 | the handler starts with an argument that points at the frame, and finds the fault address and the error code through it |
| `Upcall.EveryoneTold` | sisop_2020b_g06_delpino_romero-main/lib/pfentry.S:34-38 | the same of every activation of a handler nested in a fault, to any depth: each is told about its own fault |
| `Upcall.StillTold` | sisop_2020b_g06_delpino_romero-main/kern/trap.c:433-451 | whatever a handler and the faults nested in it do, the frame still holds its fault address and error code at its end |
| `Upcall.FaultTransparent` | sisop_2020b_g06_delpino_romero-main/lib/pfentry.S:34-99 | for any handler, with faults of its own nested to any depth that fits, a fault restores the whole trap-time state and leaves the exception stack from the trap-time stack pointer up as it was |
| `Upcall.BodyKeepsFrames` | sisop_2020b_g06_delpino_romero-main/lib/pfentry.S:34-99 | a handler and everything nested in it leave the frames above it intact |
| `Upcall.FramesDisjoint` | sisop_2020b_g06_delpino_romero-main/kern/trap.c:430-441 | frames of nested faults and the scratch words between them do not overlap and stay in the page |
| `Upcall.LostStackPointer` | sisop_2020b_g06_delpino_romero-main/kern/trap.c:433-441 | a fault inside a handler whose stack pointer is off the exception stack page destroys the frame of the outermost fault, unless both have the very same state |
| `PipeRing.StepInv` | sisop_2020b_g06_delpino_romero-main/lib/pipe.c:116-136 | every single access of reader or writer keeps the ring buffer invariant |
| `PipeRing.RunIsFifo` | sisop_2020b_g06_delpino_romero-main/lib/pipe.c:104-172 | in every interleaving rpos <= wpos <= rpos + 32, and the bytes read are a prefix of the bytes written |
| `PipeRing.WriterDelivers` | sisop_2020b_g06_delpino_romero-main/lib/pipe.c:152-169 | a writer that finds room has stored exactly one byte after four steps of its own, whatever the reader does meanwhile |
| `PipeRing.ReaderTakes` | sisop_2020b_g06_delpino_romero-main/lib/pipe.c:117-135 | a reader of a pipe that is not empty has taken the next byte after four steps of its own |
| `PipeRefs.StepInv` | sisop_2020b_g06_delpino_romero-main/lib/fd.c:189-193 | every single map or unmap of dup, close, fork and exit keeps the reference invariant |
| `PipeRefs.CountsAdd` | sisop_2020b_g06_delpino_romero-main/lib/pipe.c:185-190 | references to the pipe page are those to both ends together plus the slots half-way through dup or close |
| `PipeRefs.RunInv` | sisop_2020b_g06_delpino_romero-main/lib/fd.c:173-201 | the invariant holds in every state of every run, on any number of CPUs |
| `PipeRefs.AnswerSound` | sisop_2020b_g06_delpino_romero-main/lib/pipe.c:75-89 | on one CPU, _pipeisclosed answers true if and only if, at that moment, the other end has no reference and nobody is half-way through dup or close |
| `PipeRefs.CheckAnswers` | sisop_2020b_g06_delpino_romero-main/lib/pipe.c:78-88 | a check answers after four steps of its own if env_runs does not change, whatever the others do meanwhile |
| `PipeRefs.AnswerExact` | sisop_2020b_g06_delpino_romero-main/lib/pipe.c:80-85 | on any number of CPUs, the answer is true if and only if the count of the own end fell, between the two readings, by the references to the other end and the slots half-way together; a true answer was right if and only if it fell by the slots half-way alone |
| `PipeRefs.AnswerRight` | sisop_2020b_g06_delpino_romero-main/lib/pipe.c:80-85 | a true answer is right at the moment it is given if the count of the own end has not fallen between the two readings |
| `PipeRefs.GoneForGood` | sisop_2020b_g06_delpino_romero-main/lib/fd.c:189-193 | an end without references never gets one again |
| `PipeRefs.QuietAnswerExact` | sisop_2020b_g06_delpino_romero-main/lib/pipe.c:80-85 | when nobody is half-way through dup or close, the counts are equal if and only if the other end has no reference |
| `PipeRefs.SecondCpuMisleads` | sisop_2020b_g06_delpino_romero-main/lib/pipe.c:80-85 | a run on two CPUs, from an open pipe, in which a reader is told that the writers are gone while there is one: its child closes its copy of the read end between the two readings |
| `FileBlocks.SetPtrEffect` | sisop_2020b_g06_delpino_romero-main/fs/fs.c:151-168 | storing a block number moves one pointer of one file, through direct slots and indirect tables alike |
| `FileBlocks.FillHole` | sisop_2020b_g06_delpino_romero-main/fs/fs.c:191-197 | a zeroed block in a hole changes ownership of one block and no byte of any file |
| `FileBlocks.HangTable` | sisop_2020b_g06_delpino_romero-main/fs/fs.c:157-164 | a zeroed indirect block changes no byte and no block pointer |
| `FileBlocks.WriteBlock` | sisop_2020b_g06_delpino_romero-main/fs/fs.c:409 | a store into an allocated block reaches one block of one file |
| `FileSystem.FileSystem.AllocBlock` | sisop_2020b_g06_delpino_romero-main/fs/fs.c:60-78 | the least free block, or failure exactly when none is free; nobody owns the block |
| `FileSystem.FileSystem.FileBlockWalk` | sisop_2020b_g06_delpino_romero-main/fs/fs.c:143-170 | each outcome exactly under its condition; no byte and no block pointer changes even when it allocates; a full disk ends in a panic |
| `FileSystem.FileSystem.FileGetBlock` | sisop_2020b_g06_delpino_romero-main/fs/fs.c:180-200 | the block of a file, allocated if it was a hole, without changing any file's bytes; it panics exactly when fewer blocks are free than are needed |
| `FileSystem.FileSystem.FileFreeBlock` | sisop_2020b_g06_delpino_romero-main/fs/fs.c:419-433 | one block becomes a hole that reads as zeros, and exactly its disk block becomes free |
| `FileSystem.FileSystem.FileTruncateBlocks` | sisop_2020b_g06_delpino_romero-main/fs/fs.c:443-459 | frees exactly the blocks beyond the new size, and the indirect block exactly when it is no longer needed; all other ownership and bytes stay |
| `FileSystem.FileSystem.FileSetSize` | sisop_2020b_g06_delpino_romero-main/fs/fs.c:462-470 | the size changes, blocks beyond it read as zeros, the bytes of kept blocks stay (the tail of the last block too), and the free blocks grow by exactly the surplus ones |
| `FileSystem.FileSystem.FileRead` | sisop_2020b_g06_delpino_romero-main/fs/fs.c:364-386 | exactly min(count, size - offset) bytes of the file, or an error past the largest file; although it may allocate blocks for holes it changes no byte of any file; it panics if and only if fewer blocks are free than the holes in the range, and a missing indirect block, need |
| `FileSystem.FileSystem.FileWrite` | sisop_2020b_g06_delpino_romero-main/fs/fs.c:393-415 | changes exactly the bytes [offset, offset+count) of one file and sets its size to the larger of the two; it panics if and only if fewer blocks are free than the holes in the range, and a missing indirect block, need, so never on an overwrite |
| `FileSystem.NeedStep` | sisop_2020b_g06_delpino_romero-main/fs/fs.c:376-381 | getting the first block of a range takes from the need of the range exactly what that block needed |
| `FileSystem.FileSystem.WriteThenRead` | sisop_2020b_g06_delpino_romero-main/fs/fs.c:361-415 | what file_write accepted, file_read returns |
| `FileSystem.FileSystem.DirLookup` | sisop_2020b_g06_delpino_romero-main/fs/fs.c:206-230 | the first directory entry of that name, or not found exactly when no entry has it |
| `FileSystem.FileSystem.Conservation` | sisop_2020b_g06_delpino_romero-main/fs/fs.c:43-78 | free, owned and reserved blocks together are s_nblocks |
| `PlainFiles.Step` | sisop_2020b_g06_delpino_romero-main/fs/fs.c:361-470 | a read, write or size change answers, and changes what every file shows, as on files that are only a size and an array of bytes; it ends in a panic if and only if there are fewer free blocks than it needs |
| `PlainFiles.Run` | sisop_2020b_g06_delpino_romero-main/fs/fs.c:361-470 | every run of file operations gives the answers and the contents of the same run on plain files, up to the first operation that needs more blocks than are free, if there is one; and every block stays reserved, free or named by exactly one pointer, with no pointer beyond the last block of a file |
| `PlainFiles.SeenWritten` | sisop_2020b_g06_delpino_romero-main/fs/fs.c:393-415 | a write is an overwrite of one array and nothing else |
| `PlainFiles.SeenResized` | sisop_2020b_g06_delpino_romero-main/fs/fs.c:443-470 | a size change clears exactly the whole blocks beyond the new size: the tail of the last block stays |
| `FileSystem.WriteMore` | sisop_2020b_g06_delpino_romero-main/fs/fs.c:405-412 | one round of the write loop extends the written part of the file by exactly its piece |
| `BlockCache.Cache.constructor` | sisop_2020b_g06_delpino_romero-main/fs/bc.c:171-180 | after bc_init the cache shows the disk |
| `BlockCache.Cache.Fault` | sisop_2020b_g06_delpino_romero-main/fs/bc.c:29-75 | loading a block, with the nested faults on bitmap blocks this can cause, changes no contents and sets no dirty bit; it panics exactly on a block that is marked free |
| `BlockCache.Cache.BlockIsFree` | sisop_2020b_g06_delpino_romero-main/fs/fs.c:32-41 | reads the bit of a block through the cache, and never panics on a bitmap block |
| `BlockCache.Cache.FlushBlock` | sisop_2020b_g06_delpino_romero-main/fs/bc.c:84-111 | the disk block becomes what readers see, which itself does not change, and the page is clean |
| `BlockCache.Cache.AllocBlock` | sisop_2020b_g06_delpino_romero-main/fs/fs.c:60-78 | the least free block becomes used in memory and on disk at once |
| `BlockCache.Cache.FreeBlock` | sisop_2020b_g06_delpino_romero-main/fs/fs.c:43-51 | the block becomes free in memory only |
| `BlockCache.Cache.FsSync` | sisop_2020b_g06_delpino_romero-main/fs/fs.c:495-501 | afterwards every disk block is what readers see and no page is dirty |
| `BlockCache.Cache.Step` | sisop_2020b_g06_delpino_romero-main/fs/bc.c:29-111 | every operation answers as a plain disk without a cache would; it panics exactly on touching a block that is free and not cached; fs_sync leaves the disk equal to the contents, and a flush makes one disk block so and touches no other |
| `BlockCache.Cache.Run` | sisop_2020b_g06_delpino_romero-main/fs/fs.c:43-78 | over every run: answers of a plain disk, clean pages equal to their disk blocks, and every block that is free on disk free in memory |
| `BlockCache.AfterAlloc` | sisop_2020b_g06_delpino_romero-main/fs/fs.c:70-73 | flushing the bitmap block at once keeps the free blocks on disk within the free blocks in memory |
| `Format.NameFound` | sisop_2020b_g06_delpino_romero-main/inc/fs.h:30-45 | the name in an encoded directory entry reads back |
| `Format.FieldsFound` | sisop_2020b_g06_delpino_romero-main/inc/fs.h:30-45 | size, direct pointers and indirect pointer of an encoded entry read back |
| `Format.AttachBlock` | sisop_2020b_g06_delpino_romero-main/fs/fsformat.c:140-147 | hanging a filled block into a file makes exactly that block of the file read as it does |
| `Format.Formatter.Alloc` | sisop_2020b_g06_delpino_romero-main/fs/fsformat.c:81-89 | hands out consecutive blocks; fails exactly when the bump pointer reaches the end of the disk |
| `Format.Formatter.OpenDisk` | sisop_2020b_g06_delpino_romero-main/fs/fsformat.c:91-120 | a zeroed disk with magic number, block count and an empty root directory, if the reserved blocks fit |
| `Format.Formatter.FinishFile` | sisop_2020b_g06_delpino_romero-main/fs/fsformat.c:134-148 | the file holds exactly the given blocks in order, through direct and indirect slots; from NDIRECT blocks on it takes an indirect block as well |
| `Format.Formatter.WriteFile` | sisop_2020b_g06_delpino_romero-main/fs/fsformat.c:180-209 | adds one entry and one file with these contents and keeps all earlier ones; fails exactly on a file too large, too many entries or a full disk |
| `Format.Formatter.FinishDir` | sisop_2020b_g06_delpino_romero-main/fs/fsformat.c:169-178 | the root directory holds the entries of all files; without any entry it takes a block it has not allocated |
| `Format.Formatter.FinishDisk` | sisop_2020b_g06_delpino_romero-main/fs/fsformat.c:122-128 | exactly the blocks from the bump pointer on are marked free |
| `Format.Formatter.Build` | sisop_2020b_g06_delpino_romero-main/fs/fsformat.c:218-243 | an image exactly for acceptable inputs; every file holds its input; and no block is both free and in use, nor neither, if and only if there is at least one file |
| `Format.EntryFound` | sisop_2020b_g06_delpino_romero-main/fs/fs.c:219-228 | entry e of the root directory holds the name and the fields of the e-th file |
| `Format.ImageEntries` | sisop_2020b_g06_delpino_romero-main/fs/fs.c:206-230 | decoding the directory blocks of an image gives exactly the files the formatter laid out |
| `Format.CheckDisk` | sisop_2020b_g06_delpino_romero-main/fs/fs.c:14-24 | the checks of check_super and check_bitmap pass exactly on the right magic number, a disk that is not too large, and reserved blocks all in use |
| `Format.MountImage` | sisop_2020b_g06_delpino_romero-main/fs/fs.c:106-125 | the files decoded from an image's directory blocks are the files laid out: exclusive ownership, no pointer beyond the end of a file, no hole, every entry under its name |
| `Format.FormatMountRead` | sisop_2020b_g06_delpino_romero-main/fs/fsformat.c:218-243 | for every non-empty list of distinctly named files that is acceptable: the image passes the checks of a mount, and looking a name up and reading gives back its input bytes |
| `Server.IdsDiffer` | sisop_2020b_g06_delpino_romero-main/fs/serv.c:67-84 | a file id is congruent to its slot, and two ids are equal if and only if they are of one slot and a multiple of 2^22 allocations apart |
| `Server.NextId` | sisop_2020b_g06_delpino_romero-main/fs/serv.c:77 | adding MAXOPEN in 32 bits gives the next id of the slot |
| `Server.NegativeIds` | sisop_2020b_g06_delpino_romero-main/fs/serv.c:80 | returned as int, the ids of the upper half of every period look like errors to serve_open |
| `Server.StaleIds` | sisop_2020b_g06_delpino_romero-main/fs/serv.c:86-97 | within 2^22 allocations of a slot only its latest id is current |
| `Server.OpenTable.constructor` | sisop_2020b_g06_delpino_romero-main/fs/serv.c:49-59 | every slot starts under its own number, unused |
| `Server.OpenTable.Alloc` | sisop_2020b_g06_delpino_romero-main/fs/serv.c:61-84 | the first slot no client holds, under its next id, with the seek position at 0; or the error that applies |
| `Server.OpenTable.Lookup` | sisop_2020b_g06_delpino_romero-main/fs/serv.c:86-97 | the k-th id of a slot is accepted exactly when a client holds the slot and its counter stands at k modulo 2^22 |
| `Server.ServeRead` | sisop_2020b_g06_delpino_romero-main/fs/serv.c:212-246 | the next bytes of the file from the shared seek position, which moves past exactly these; errors leave it alone; it panics if and only if the id is accepted and the read needs more blocks for holes than are free |
| `Server.ServeWrite` | sisop_2020b_g06_delpino_romero-main/fs/serv.c:252-285 | the bytes go to the seek position, which moves past exactly these; errors leave it alone; it panics if and only if the id is accepted and the write needs more blocks than are free |
| `SpawnImage.RoundTrip` | sisop_2020b_g06_delpino_romero-main/lib/spawn.c:246-257 | reading argc, argv and the strings from the stack pointer of a laid-out page gives back the argument list |
| `SpawnImage.NoOverlap` | sisop_2020b_g06_delpino_romero-main/lib/spawn.c:210-223 | the two parameter words, the pointer array and the strings do not overlap and fill the page to its top |
| `SpawnImage.FitsBySize` | sisop_2020b_g06_delpino_romero-main/lib/spawn.c:204-223 | a list fits exactly when its strings with their terminators, rounded up to words, and three words more than there are arguments take at most one page |
| `SpawnImage.FilledMore` | sisop_2020b_g06_delpino_romero-main/lib/spawn.c:246-250 | one round of the copy loop adds one argument and keeps the earlier ones |
| `SpawnImage.FillPage` | sisop_2020b_g06_delpino_romero-main/lib/spawn.c:246-257 | the loop and the stores after it lay the page out |
| `SpawnImage.Child.InitStack` | sisop_2020b_g06_delpino_romero-main/lib/spawn.c:196-275 | a list is refused exactly when the sizes of its strings do not fit (or the kernel has no page); otherwise the child finds exactly these arguments from an aligned stack pointer inside the page |
| `SpawnImage.Child.MapSegment` | sisop_2020b_g06_delpino_romero-main/lib/spawn.c:277-319 | child byte va+j is the file byte at offset+j for j < filesz and 0 up to memsz, for any alignment of va; other pages stay; it fails exactly when the pages run out |
| `SpawnImage.PagesMakeSegment` | sisop_2020b_g06_delpino_romero-main/lib/spawn.c:291-317 | the pages of the aligned loop together are the unaligned segment |
| `SpawnImage.Child.LoadSegments` | sisop_2020b_g06_delpino_romero-main/lib/spawn.c:118-134 | after the loop every page is as the last loadable segment that covers it wants it, and every other page as before; it fails exactly when the pages run out |
| `SpawnImage.AllLoaded` | sisop_2020b_g06_delpino_romero-main/lib/spawn.c:81-86 | when no two loadable segments share a page, as the linker guarantees, every one of them is in place as a whole |
| `SpawnImage.Child.BuildImage` | sisop_2020b_g06_delpino_romero-main/lib/spawn.c:115-134 | success exactly when the sizes of the arguments and the pages of the segments fit; the arguments are intact if no segment covers the stack page, and all segments are in place if they share no page |
| `Sieve.SieveCorrect` | sisop_2020b_g06_delpino_romero-main/user/primes.c:13-52 | under every schedule, in every reachable state, the numbers held along the chain are the first primes, none missing, and the input of each process is, in order, a prefix of the integers >= 2 that the primes before it do not divide |
| `Sieve.StepInv` | sisop_2020b_g06_delpino_romero-main/user/primes.c:30-35 | every rendezvous and every fork keeps what each process has sent equal to what it should have let through |
| `Sieve.NoDeadlock` | sisop_2020b_g06_delpino_romero-main/lib/ipc.c:68-87 | in every state of the invariant some process or the generator can take a step |
| `Sieve.NextPrime` | sisop_2020b_g06_delpino_romero-main/user/primes.c:19-22 | the least number >= 2 that none of the first primes divides is the next prime |
| `Sieve.FilterSurvivors` | sisop_2020b_g06_delpino_romero-main/user/primes.c:31-34 | filtering by one more prime gives the numbers that survive one more prime |
| `Sieve.SurvivorsAre` | sisop_2020b_g06_delpino_romero-main/user/primes.c:49-51 | the survivors are exactly the numbers that should survive, in increasing order |

## Left out

- Device drivers, boot code, the console, LAPIC, MMIO, segment descriptors and trap entry: hardware.
- user_mem_check and user_mem_assert beyond the writability check of a user store.
- The shell, the printf family, string routines and argument parsing: they carry none of the properties above.
- Crash consistency of the file system: the code does not order the indirect block and freed bits on disk.
- walk_path, file_create, dir_alloc_file, file_remove and file_flush: directories are modelled for lookup only.
- struct File is a record of its own in `FileSystem`; that directory blocks hold these records as bytes is modelled in `Format`, for images as built and mounted.
- Indirect blocks are typed as tables of numbers, not as bytes; exclusive ownership is what keeps the two uses of a block apart.
- The super block is a value, not bytes of block 1.
- The packing of bitmap bits into 32-bit words: `BlockCache` works on bits, `FileSystem` and `Format` on one boolean per block.
- pp_ref is unbounded; the 16 bits of the source overflow beyond 65535 references to one page.
- 32-bit overflow of file offsets and pipe positions.
- Argument lists of more than 4 MiB, for which the address arithmetic of init_stack wraps around.
- Page tables made by boot_map_region are reserved pages without counted references; `BootMap` keeps them as values and assumes that memory does not run out at boot.
- Permission bits other than PTE_W and PTE_U in `BootMap`.
- `Smp` leaves out the permission check of envid2env: any live slot can be named by an operation.
- `Upcall` assumes a word-aligned stack pointer, and leaves out the value of the flags between instructions.
- `PipeRefs` takes fork and exit as single steps; fork copies descriptor pages before pipe pages, so the order of mappings inside it is not covered.
- The stale env_ipc fields of a freed environment, until its slot is allocated again, are not claimed to mean anything.
- UserStore: the translation is that of the page tables; the TLB and its invalidation are not modelled.
- ServeRead: the reply buffer is as long as needed; in the source a reply of more than one page would run over the request page.
- SysExofork: the trap frame of the child, a copy of the parent's with eax 0, is not part of the kernel state of the model.
- The kernel's, the scheduler's and the message system's views of send and receive (`KernelMemory`, `Smp`, `Ipc`) are separate models of the same lines, each with the part of the state its properties need.
- Formatter.Build: requires names shorter than MAXNAMELEN, which diradd does not check, and directory entries that start as zeros, as fresh pages from malloc do.
- MapSegment: requires a file offset of at least the page offset of the address, as ELF guarantees (System V ABI, chapter 5); failures of seek and readn, and the panic when the final sys_page_map fails, are not modelled.
- Sieve: a receive blocks and completes in one rendezvous; the 1024 environments of the machine and the 32-bit generator are unbounded.
- CowFork: physical memory does not run out, and the library's panics on failing system calls are not modelled.
