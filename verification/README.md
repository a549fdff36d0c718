# Verified model of the operating systems labs

This Dafny project models four programs of the repository and proves what each is for.

**The JOS kernel's virtual memory and copy-on-write fork.** `Vm.dfy` describes the state in mathematical terms:
reference counts, the free list, and a flat map from (directory, page number) to (frame, flags). `VmInv.dfy`,
`Teardown.dfy`, `Syscalls.dfy` and `Leaks.dfy` prove that reference counts are exact over every run, that teardown
gives back exactly what only the dying environment held, exactly which calls keep counts and write rights as they
should be, and which single path loses a frame. `Tables.dfy`, `Pmap.dfy` and `KernelCalls.dfy` refine this state to
what the C code works on: an intrusive free list, 16-bit counts, page tables stored as words in frames of the same
allocator, and a TLB. `Cow.dfy`, `CowRuns.dfy` and `ForkCalls.dfy` put the user-level fork on top and prove that it
cannot be told from one that copies each page when it comes to it, whatever other environments do between two pages
and whoever runs out of memory; `ForkV0.dfy` and `ForkV0Calls.dfy` compare it with the repository's own eager fork.
`UserMem.dfy` has the check of user memory ranges. `Findings.dfy` has runs from boot that end in states where calls do
what they are not meant to.

**The scheduler and the environment table on N CPUs.** `EnvIds.dfy`, `Sched.dfy`, `SchedInv.dfy`, `SchedRuns.dfy`
treat everything between taking and releasing the big kernel lock as one event. No environment runs on two CPUs,
`sched_pr` picks the first best environment around the ring, ids do not go stale unnoticed, and nobody starves on one
CPU. `SchedKernel.dfy` has the loops over arrays and the chain of free environments; `SchedFindings.dfy` has a run
that loses a CPU's environment. `Spin.dfy` goes below the events, to the single reads and writes of the lock.
`Fault.dfy` follows a page fault to user code and back on byte-addressed memory.

**The prime sieve.** `Primes.dfy` is the mathematics of the stages, `Sieve.dfy` and `SieveRuns.dfy` every interleaving
of the system calls of the processes, over bounded FIFO pipes and with the descriptors each process has open.

**fisopfs.** `FsPaths.dfy`, `FsTree.dfy`, `FsOps.dfy`, `FsView.dfy` model the tree of growable slot arrays and show
that it is a map from paths to nodes; `FsSpace.dfy` accounts for space over whole runs; `FsImage.dfy`, `FsReload.dfy`
and `FsReach.dfy` cover the saved image byte by byte, and sessions of calls and remounts; `FsNodes.dfy` has the
arrays, the file cursor and the loops.

## Where the code does not do what it says

- `env_page_alloc` drops its frame when the page table cannot be allocated (`Leaks.EnvPageAllocLeaks` says exactly when;
  `Findings.FrameLost` is a run that does it).
- `env_page_map` does not check `perm`, so its high bits are or-ed into the frame number. Counts stay exact if and only if
  the call is sound (`Syscalls.MapKeepsIff`), which also asks that the 16-bit count has room. Write rights are meant never
  to grow; they do: `Syscalls.MapGuardsIff` says for which calls, and `Findings.RightsGrow` has a run from boot after
  which a read-only page becomes writable. `Syscalls.ReadOnlyForever` is over runs of sound calls, which cannot do that.
- The guard of the fork page fault handler never fires (`CowFork.GuardNeverFires`), so a write fault on a read-only page
  makes it writable; `CowFork.PgfaultView` says when that is invisible, and `Findings.FaultGivesWrite` when it is not.
- `fork_v0` gives the child a page read-only when it is copy-on-write in the parent, takes a page the parent has at UTEMP
  away, and shares writable device pages (`ForkV0.ForkZeroIsEager`, `Findings.ForkMissesPending`,
  `Findings.ForkLosesTemp`).
- `user_mem_check` computes the end of the range in 32 bits and accepts ranges that wrap around (`UserMem.CheckWrapped`).
  Its comment promises a limit of ULIM; the code uses UTOP. For a range that ends above UTOP it reports the start.
- `sys_env_set_status`, `sys_ipc_try_send`, `sys_env_destroy` and, with an unreadable handler,
  `sys_env_set_pgfault_upcall` do not look at the target's status. `SchedInv.Safe` is the exact condition on a call under
  which one CPU per environment is kept, `SchedInv.StepKeeps` the equivalence, and `SchedFindings.ChildTaken` a run that
  breaks it.
- `sys_inc_priority` is documented to stop a child from raising its parent; the code stops a parent from raising its
  child. The model follows the code.
- The second and later boosts come after 999 charged ticks, not 1000 (`SchedRuns.BoostPeriod`).
- The first exception frame starts 53 bytes below the top of the page, so it is not word-aligned; with a trap-time stack
  pointer of UXSTACKTOP, plus at most two, the return address overlaps the frame (`Fault.OverlapExact`,
  `Fault.AddressLost`). An overflow of the exception stack is found after the stores (`Fault.OverflowWrites`).
- fisopfs returns a positive ENOENT from unlink, rmdir and create; the model does too.
- fisopfs never refunds the content of an unlinked file (`FsSpace.UnlinkSpace`).

## Model

| member | source | states |
|---|---|---|
| `Words.PteForKeepsFrame` | sched/kern/pmap.c:502 | `page2pa(pp) \| perm \| PTE_P` names the frame being mapped, for every frame, exactly when `perm` has no bit above the low twelve |
| `VmInv.FreeUnreferenced` | sched/kern/pmap.c:366-377 | a frame of the free list has count 0 and no entry, table or directory points to it |
| `VmInv.WalkKeeps` | sched/kern/pmap.c:412-429 | creating a table keeps every count exact, with any references still in flight |
| `VmInv.DecrefKeeps` | sched/kern/pmap.c:383-388 | giving up a reference keeps counts exact, and the frame goes to the head of the free list exactly when that reference was the last one |
| `VmInv.RemoveKeeps` | sched/kern/pmap.c:549-568 | unmapping keeps counts exact |
| `VmInv.PinnedRemove` | sched/kern/pmap.c:489-505 | the unmap inside `page_insert` never frees the page being inserted, because its count was raised first: re-inserting a page at its own address is safe |
| `VmInv.PutKeeps` | sched/kern/pmap.c:489-505 | `page_insert` keeps all counts exact, also where the 16-bit count of a page inserted where it already is goes over its range and back |
| `VmInv.PutBreaks` | sched/kern/pmap.c:489-505 | otherwise, when `perm` changes the frame number or the count goes over its range, it does not |
| `VmInv.InsertFlat` | sched/kern/pmap.c:489-505 | the two-level table refines a flat map: insert updates exactly one key, a failed insert changes nothing, every other address of every directory and every page's contents stay |
| `VmInv.WalkFlat` | sched/kern/pmap.c:412-429 | creating a table changes no translation, no page and no count of a page |
| `Syscalls.ApplyGood` | sched/kern/syscall.c:245-338 | each page call, environment creation and teardown keeps exact counts, a duplicate-free free list, and conserves the pool of frames |
| `Syscalls.Exec` | sched/kern/syscall.c:245-338 | the same over any sequence of calls whose mappings are sound in the sense of `Syscalls.MapKeepsIff` |
| `Syscalls.MapKeepsIff` | sched/kern/syscall.c:62-74 | `env_page_map` checks no bits of `perm`: for every call, counts and structure stay exact exactly when a call that goes through names the frame it found and its 16-bit count has room |
| `Syscalls.MapGuardsIff` | sched/kern/syscall.c:62-74 | for every call, a page nobody may write to stays so exactly when the call fails, asks for no write access, or the or of the found frame's number and `perm` is not this page's number |
| `Syscalls.ApplyGuards` | sched/kern/syscall.c:47-74 | no other call, and no sound mapping, gives write access to a frame that nobody may write to or changes its contents while it is mapped |
| `Findings.RightsGrow` | sched/kern/syscall.c:283-313 | from boot, three calls reach a state where a fourth, with a high bit in `perm`, succeeds, maps another frame than the source page's, makes that read-only page writable and leaves the counts wrong |
| `Syscalls.ReadOnlyForever` | sched/kern/syscall.c:47-74 | over any run of sound calls write rights never grow: a mapped frame without writable mapping keeps its contents and gains none, until its count reaches 0 |
| `Leaks.AllReturned` | sched/kern/pmap.c:383-388 | after all environments ended, exactly the leaked frames are missing from the free list |
| `Leaks.EnvPageAllocLeaks` | sched/kern/syscall.c:47-59 | `env_page_alloc` loses its frame exactly when memory runs out between the page and its table |
| `Leaks.ApplyLeaks` | sched/kern/syscall.c:245-338 | no other call loses a frame |
| `Findings.FrameLost` | sched/kern/syscall.c:47-59 | from boot, a run after which `sys_page_alloc` fails and its frame is lost |
| `Teardowns.TeardownTorn` | sched/kern/env.c:409-457 | `env_free` removes exactly the entries, tables and the directory of its environment |
| `Teardowns.TeardownCounts` | sched/kern/env.c:409-457 | every other frame's count drops by exactly the number of that environment's mappings of it |
| `Teardowns.TeardownPage` | sched/kern/env.c:409-457 | a data page goes back to the free list exactly when only this environment mapped it |
| `Teardowns.TeardownFrees` | sched/kern/env.c:409-457 | the frames returned are exactly those only this environment referenced, tables and directory included |
| `Tables.HwWalkFlat` | sched/kern/pmap.c:412-429 | the hardware's two-step walk over memory words gives the entry of the flat map |
| `Tables.UvptReads` | sched/kern/env.c:189-196 | through the self-mapping a user reads exactly its own page table entry |
| `Tables.InvalidateCoherent` | sched/kern/pmap.c:574-580 | `tlb_invalidate`, which skips directories other than the current one, leaves every cached translation in agreement with the loaded directory |
| `Pmap.BootFreeExact` | sched/kern/pmap.c:291-332 | the free list after boot holds exactly the frames that may be allocated, each once |
| `Pmap.Kernel.PageInit` | sched/kern/pmap.c:291-332 | builds that list in the link fields |
| `Pmap.Kernel.PageAlloc` | sched/kern/pmap.c:346-360 | takes the head of the intrusive list |
| `Pmap.Kernel.PageFree` | sched/kern/pmap.c:366-377 | puts a frame back at the head |
| `Pmap.Kernel.PageDecref` | sched/kern/pmap.c:383-388 | refines the abstract step on the real arrays |
| `Pmap.Kernel.PgdirWalk` | sched/kern/pmap.c:412-429 | finds or creates the table, or fails and changes nothing |
| `Pmap.Kernel.PageLookup` | sched/kern/pmap.c:518-532 | returns the frame mapped at an address, or none; testing `*pte && PTE_P` is right because every non-zero entry is present |
| `Pmap.Kernel.TlbInvalidate` | sched/kern/pmap.c:574-580 | drops the cached translation of the current directory |
| `Pmap.Kernel.PageRemove` | sched/kern/pmap.c:549-568 | clears the entry, gives up the reference and keeps the TLB coherent |
| `Pmap.Kernel.PageInsert` | sched/kern/pmap.c:489-505 | refines the flat insert on memory words, counts, list and TLB, for any `perm` |
| `KernelCalls.EnvSetupVm` | sched/kern/env.c:162-196 | a new directory: user half empty, kernel half copied, self-mapping set |
| `KernelCalls.EnvFree` | sched/kern/env.c:409-457 | the nested teardown loops refine `Teardowns.TeardownTorn`'s function, also when the environment is the loaded one |
| `KernelCalls.EnvPageAllocM` | sched/kern/syscall.c:47-59 | refines `Syscalls.EnvPageAlloc`, the lost frame included |
| `KernelCalls.EnvPageMapM` | sched/kern/syscall.c:62-74 | refines `Syscalls.EnvPageMap` for any `perm` |
| `KernelCalls.SysPageAllocM` | sched/kern/syscall.c:245-265 | the system call with its address checks |
| `KernelCalls.SysPageMapM` | sched/kern/syscall.c:283-313 | the system call with its address checks, for any `perm`; the kernel's structures are consistent afterwards exactly when the mapping was sound |
| `KernelCalls.SysPageUnmapM` | sched/kern/syscall.c:322-338 | the system call with its address checks |
| `KernelCalls.LoadDir` | sched/kern/env.c:488-492 | loading a directory flushes the TLB, so it stays coherent |
| `KernelCalls.HwFill` | sched/kern/pmap.c:574-580 | a TLB miss caches exactly the entry of the loaded directory for that page, if there is one |
| `KernelCalls.UserStore` | sched/kern/pmap.c:574-580 | a store through a cached translation changes the page the tables map there, and only it |
| `CowFork.GuardNeverFires` | sched/lib/fork.c:25-32 | the guard of the page fault handler ANDs 2 with 0 or 1 and is never true |
| `CowFork.PgfaultView` | sched/lib/fork.c:15-48 | resolving a fault leaves what every environment sees unchanged exactly when the page was one the environment might write to |
| `CowFork.DuppageEffect` | sched/lib/fork.c:61-96 | one page: the child's view gains the parent's page and nobody else's view changes |
| `CowFork.ForkPagesEffect` | sched/lib/fork.c:226-237 | the loop of `fork` adds exactly the parent's pages from a page on |
| `CowFork.ForkEffect` | sched/lib/fork.c:206-251 | after `fork` the child sees exactly what the parent sees and nobody else a difference |
| `CowFork.ExitView` | sched/kern/env.c:409-457 | an environment's end removes its view and no other's |
| `CowRuns.StepRefines` | sched/lib/fork.c:15-96 | one action of one environment, a single `duppage` in the loop of its fork included: the outcome and everybody's new view are those of a machine that copies each page when the fork comes to it |
| `CowRuns.DupFails` | sched/lib/fork.c:61-96 | `duppage` panics only when the child's page table cannot be had |
| `CowRuns.PgfaultFails` | sched/lib/fork.c:15-48 | the fault handler panics only without a page, and then nobody's view has changed |
| `CowRuns.FailureIsLocal` | sched/lib/fork.c:15-96 | a fork or fault that runs out of memory stops its own environment; every view stays and all others can go on |
| `Findings.FaultGivesWrite` | sched/lib/fork.c:15-48 | from boot, a state in which the fault handler makes a page writable that its environment only had for reading |
| `CowRuns.CowRefinesEager` | sched/lib/fork.c:206-251 | for any tree of forks, any interleaving between any two pages of a fork of reads, writes, exits, other forks and failures: every value read and every final view is what it would be had each page been copied when the fork came to it |
| `CowRuns.WholeFork` | sched/lib/fork.c:206-251 | if the parent does not write meanwhile, the child ends with exactly what the parent saw, whatever all others did |
| `ForkCalls.Pgfault` | sched/lib/fork.c:15-48 | the handler as system calls on the kernel's arrays |
| `ForkCalls.Duppage` | sched/lib/fork.c:61-96 | `duppage` as system calls |
| `ForkCalls.Fork` | sched/lib/fork.c:206-251 | `fork`, its loop reading `uvpd` and `uvpt` |
| `ForkV0.DupOrShareEffect` | sched/lib/fork.c:110-143 | one page of the eager fork, device pages and UTEMP itself included: the child gets it, writable if the parent could write to it just then; a copy takes the parent's UTEMP away; nothing else changes |
| `ForkV0.ZeroPagesEffect` | sched/lib/fork.c:174-180 | the loop of `fork_v0` hands on exactly the pages it gets to, and takes UTEMP from the parent exactly if it copies any |
| `ForkV0.ZeroPagesExcl` | sched/lib/fork.c:110-143 | without writable device pages no frame gets a second writer |
| `ForkV0.ZeroPagesShares` | sched/lib/fork.c:110-143 | a writable device page has two writers in the end |
| `ForkV0.ForkZeroEffect` | sched/lib/fork.c:157-187 | what the child of `fork_v0` sees, what the parent is left with, and that nobody else sees a difference |
| `ForkV0.ForkZeroIsEager` | sched/lib/fork.c:157-187 | `fork_v0` copies the parent's whole view exactly when the parent has no copy-on-write page pending and does not lose a page at UTEMP, and keeps the two apart exactly when besides it has no writable device page |
| `Findings.ForkLosesTemp` | sched/lib/fork.c:132-142 | from boot, a parent whose `fork_v0` succeeds and takes its page at UTEMP away |
| `Findings.ForkMissesPending` | sched/lib/fork.c:110-131 | from boot, a parent with a copy-on-write page that its `fork_v0` child may only read |
| `ForkV0.BothForksAgree` | sched/lib/fork.c:157-251 | where both succeed, `fork` and `fork_v0` give every environment the same view exactly in the first of those cases |
| `ForkV0Calls.CopyToChild` | sched/lib/fork.c:132-142 | the copy through UTEMP as system calls on the kernel's arrays |
| `ForkV0Calls.DupOrSharePage` | sched/lib/fork.c:110-143 | `dup_or_share` as system calls |
| `ForkV0Calls.ForkZeroRun` | sched/lib/fork.c:157-187 | `fork_v0`, its loop reading `uvpd` and `uvpt` |
| `UserMem.CheckExact` | sched/kern/pmap.c:643-664 | without 32-bit wrap-around `user_mem_check` accepts exactly the accessible ranges, except that an empty range inside a page needs that page, and reports the first inaccessible address below UTOP |
| `UserMem.CheckWrapped` | sched/kern/pmap.c:643-664 | with wrap-around no range is accessible, but only the pages below the wrapped end are looked at |
| `UserMem.WrappedPasses` | sched/kern/pmap.c:643-664 | so the range from any page to the end of the address space is accepted |
| `UserMem.UserMemCheck` | sched/kern/pmap.c:643-664 | the loop over the kernel's page tables computes that result |
| `EnvIds.IdAtClosed` | sched/kern/env.c:220-224 | the id of a slot after k allocations, signed overflow taken as wrap-around |
| `EnvIds.IdEncodesSlot` | sched/kern/env.c:220-224 | every id is positive and encodes its slot |
| `EnvIds.IdRepeats` | sched/kern/env.c:220-224 | two allocations of a slot share an id exactly when 524287 divides their distance |
| `EnvIds.IdNamesOne` | sched/kern/env.c:74-107 | within 524287 allocations an id names one allocation of one slot |
| `SchedInv.EnvAllocTable` | sched/kern/env.c:206-267 | `env_alloc` takes a free slot, gives it a fresh positive id and leaves every other environment alone |
| `SchedInv.EnvAllocFailsOnlyWhen` | sched/kern/env.c:206-218 | which failure is reported when |
| `SchedInv.EnvFreeTable` | sched/kern/env.c:448-457 | the free list stays exact when an environment ends |
| `SchedInv.CurResolves` | sched/kern/env.c:74-107 | the running environment's own id resolves to it and gives the scan its start |
| `SchedInv.ScanFrom` | sched/kern/sched.c:107-146 | the scan with running best and early exit finds the first runnable environment of least priority around the ring, or there is none |
| `SchedInv.ChooseBest` | sched/kern/sched.c:107-146 | `sched_pr` on every reachable table: that environment; else the running one; else nothing. The test of `env_cpunum` never matters |
| `SchedInv.ExoforkTable` | sched/kern/syscall.c:152-175 | a forked environment is NOT_RUNNABLE, has its parent's priority and no ticks; nothing else changes |
| `SchedInv.PriorityCalls` | sched/kern/syscall.c:459-496 | both priority calls keep priorities in 1..10 |
| `SchedInv.ResolveMeans` | sched/kern/env.c:74-107 | `envid2env` finds the one live environment with the id, or the caller for 0, and with the check only the caller or its child |
| `SchedInv.PriorityCallsMean` | sched/kern/syscall.c:459-496 | which target each priority call accepts, and that it moves exactly that one by one step within 1..10 |
| `SchedInv.EnvRunOwn` | sched/kern/env.c:500-532 | a context switch leaves every running environment on one CPU |
| `SchedInv.HaltOwn` | sched/kern/sched.c:185-215 | halting leaves no environment behind |
| `SchedInv.YieldOwn` | sched/kern/sched.c:155-172 | the same for a whole scheduling decision |
| `SchedInv.KillKeeps` | sched/kern/env.c:464-483 | destroying a target not already DYING keeps the invariant |
| `SchedInv.StepKeeps` | sched/kern/trap.c:245-302 | every kernel entry, IPC and upcall registration included, keeps the invariant exactly when it does not write the status of an environment another CPU holds and does not destroy one already DYING; the code checks neither |
| `SchedFindings.ChildTaken` | sched/kern/syscall.c:184-204 | from boot on two CPUs: a parent sets its child NOT_RUNNABLE while it runs on the other CPU, and from then on it runs without being RUNNING |
| `SchedRuns.BootedInv` | sched/kern/env.c:115-130 | the state after `env_init` and `env_create` meets the invariant |
| `SchedRuns.RunKeeps` | sched/kern/trap.c:257-301 | over any run on any number of CPUs, whenever the lock is free: RUNNING or DYING means current on exactly one CPU, and a CPU in user mode has a current environment |
| `SchedRuns.FromBoot` | sched/kern/sched.c:60-90 | from boot on, every live environment's priority stays in 1..10 |
| `SchedRuns.StaleNeverResolves` | sched/kern/env.c:74-107 | over any run, an old id resolves to its own allocation or to nothing while its slot was reallocated fewer than 524287 times |
| `SchedRuns.BoostPeriod` | sched/kern/sched.c:60-71 | the first boost comes with charged tick 1000, later ones every 999 |
| `SchedRuns.Demotion` | sched/kern/sched.c:75-90 | an environment loses one priority every three ticks of its own, down to 10 |
| `SchedRuns.YieldPatience` | sched/kern/sched.c:107-146 | a decision that passes an environment over brings the scan closer to it |
| `SchedRuns.NoStarvation` | sched/kern/sched.c:60-146 | on one CPU a waiting environment whose priority nobody lowers is passed over for fewer than 1000 + (x + 1) * 1024 ticks, x counting exits |
| `SchedKernel.Machine.Init` | sched/kern/env.c:115-130 | the loop threads all environments through `env_link`, first ones first, which is the booted table |
| `SchedKernel.Machine.Boost` | sched/kern/sched.c:60-71 | the loop over all environments equals the specification |
| `SchedKernel.Machine.ChargeTick` | sched/kern/sched.c:75-90 | only the environment that had the tick is charged, only priorities change for the others, and the live ones stay in 1..10 |
| `SchedKernel.Machine.ScanFrom` | sched/kern/sched.c:119-136 | the scan loop equals the recursive scan `SchedInv.ScanFrom` is about |
| `SchedKernel.Machine.SchedPr` | sched/kern/sched.c:107-146 | the result is what is due to the CPU: of the runnable environments one of best priority, the first after the one it ran last; else the one it runs; else none |
| `SchedKernel.Machine.Switch` | sched/kern/env.c:500-531 | after `env_run` every running environment is on one CPU and the lock is free, when the chosen one was runnable or its own |
| `SchedKernel.Machine.SwitchEnd` | sched/kern/env.c:532 | the write after the release of the lock keeps the invariant, whatever other CPUs did in between |
| `SchedKernel.Machine.Halt` | sched/kern/sched.c:185-215 | halts, or keeps the lock in the monitor when nothing is alive |
| `SchedKernel.Machine.Yield` | sched/kern/sched.c:155-172 | what runs afterwards was due, and the table is one other CPUs may find |
| `SchedKernel.Machine.Alloc` | sched/kern/env.c:206-267 | takes the head of the `env_link` chain, gives it a positive id that encodes its slot and changes no other environment; which failure when |
| `SchedKernel.Machine.FreeEnv` | sched/kern/env.c:452-457 | the environment is the head of the chain, which holds exactly the free ones, each once |
| `SchedKernel.Machine.DestroyEnv` | sched/kern/env.c:464-483 | an environment running elsewhere is DYING, any other freed; the caller is left exactly when it destroyed itself, and goes on serving whenever the target was not DYING |
| `SchedKernel.Machine.Lookup` | sched/kern/env.c:74-107 | `envid2env` returns exactly the environment the id names: the caller for 0, else the live one with that id, with the check only the caller or its child |
| `SchedKernel.Machine.SysExofork` | sched/kern/syscall.c:152-175 | the child is NOT_RUNNABLE with its parent's priority and no ticks, and nothing else changed; on failure nothing did |
| `SchedKernel.Machine.SysEnvSetStatus` | sched/kern/syscall.c:184-204 | exactly the environment named gets the status, or nothing changes; the invariant is kept when no other CPU holds it |
| `SchedKernel.Machine.SysEnvDestroy` | sched/kern/syscall.c:111-125 | fails exactly when the id names nobody; a safe call leaves a table the kernel can go on with |
| `SchedKernel.Machine.SysIncPriority` | sched/kern/syscall.c:459-475 | one step towards 1 for exactly the environment named, which is neither the caller nor its child, or nothing |
| `SchedKernel.Machine.SysRedPriority` | sched/kern/syscall.c:483-496 | one step towards 10 for exactly the environment named, or nothing |
| `SchedKernel.Machine.SysSetUpcall` | sched/kern/syscall.c:214-229 | with a readable handler nothing changes; with a bad one the target is destroyed, and a safe call leaves a table the kernel can go on with |
| `SchedKernel.Machine.SysIpcRecv` | sched/kern/syscall.c:435-451 | the caller sleeps and something else runs, or its address is rejected and it goes on |
| `SchedKernel.Machine.TrapDispatch` | sched/kern/trap.c:195-243 | a safe cause leaves a state the caller can go on from, or one other CPUs can find |
| `SchedKernel.Machine.Enter` | sched/kern/trap.c:245-302 | `trap` from user mode, reaping of a DYING environment included, keeps the invariant exactly when the cause is safe |
| `Spin.StepKeeps` | sched/kern/spinlock.c:60-124 | one atomic read or write of any CPU keeps the lock's invariant |
| `Spin.MutualExclusion` | sched/kern/spinlock.c:38-124 | in every interleaving one CPU at most is past the exchange, `holding` answers for exactly the CPU between recording and clearing itself, and neither panic fires |
| `Spin.WaiterGetsIn` | sched/kern/spinlock.c:60-124 | a waiting CPU can always get in: the holder's own steps free the lock |
| `Fault.StoreWordsEffect` | sched/kern/trap.c:357-371 | a record stored word by word reads back and disturbs no other byte |
| `Fault.DeliverEffect` | sched/kern/trap.c:347-379 | where the frame goes, what it holds, and that a nested fault uses exactly one word more |
| `Fault.ReturnEffect` | sched/lib/pfentry.S:67-91 | the unwinding restores registers, flags and stack pointer, and eip exactly when it survives |
| `Fault.OverlapExact` | sched/lib/pfentry.S:67-72 | with a stack pointer 1 to 3 bytes above the page the return address is lost unless its bytes agree |
| `Fault.AddressLost` | sched/lib/pfentry.S:67-91 | a fault taken with the stack pointer at UXSTACKTOP comes back with another eip |
| `Fault.OverflowWrites` | sched/kern/trap.c:362-374 | on overflow the panic comes after the stores: exactly the bytes from the frame's base to the stack pointer are written when the page below is mapped, else at most the reserved word |
| `Fault.FaultIdentity` | sched/kern/trap.c:347-379 | delivery and return are the identity for faults nested to any depth and any disciplined handler |
| `Fault.DepthFits` | sched/kern/trap.c:362-374 | how many nested frames the page holds, exactly |
| `Fault.Processor.PageFaultHandler` | sched/kern/trap.c:347-379 | the handler on registers and memory updated in place, its stores before a panic included |
| `Fault.Processor.PopState` | sched/lib/pfentry.S:74-91 | the pops, instruction by instruction |
| `Fault.Processor.UpcallReturn` | sched/lib/pfentry.S:67-91 | the whole return half |
| `Primes.StreamIs` | fork/primes.c:50-59 | the numbers that reach stage k, in order, are those no earlier kept number divides |
| `Primes.FirstIsPrime` | fork/primes.c:22-32 | the first number of a stage is prime |
| `Primes.KeptArePrimes` | fork/primes.c:22-32 | the numbers kept are exactly the primes up to the maximum, in order, without repeats |
| `Primes.KthPrime` | fork/primes.c:22-32 | the k-th one is the k-th prime |
| `Sieve.WriterOpen` | fork/primes.c:13 | once a filter closed its copy, the write end of its input is open exactly as long as the previous process has not closed it |
| `Sieve.EofMeansAll` | fork/primes.c:23-30 | end of file means the whole stream has been read |
| `Sieve.NoSigpipe` | fork/primes.c:53-57 | a process with something left to write has a reader |
| `Sieve.StepKeeps` | fork/primes.c:11-68 | every system call of every process, each close included, keeps the chain, the open descriptors and the data in the pipes as they should be |
| `SieveRuns.FilterAnnouncesPrime` | fork/primes.c:22-32 | in every interleaving the k-th filter's `primo` is the k-th prime |
| `SieveRuns.NoDeadlock` | fork/primes.c:11-68 | with pipes of any positive capacity, unless all processes ended one can go on |
| `SieveRuns.RunLength` | fork/primes.c:11-68 | every call lowers a measure over pending values and stages |
| `SieveRuns.EveryRunEnds` | fork/primes.c:95-113 | so every run ends |
| `SieveRuns.FinalState` | fork/primes.c:95-113 | a finished run: every process ended at end of file, every pipe was read to its end, the filters are the primes up to the maximum and one more |
| `FsPaths.ParentAndName` | fisopfs/utilidades.c:46-63 | the last slash of a normalised path separates parent and name |
| `FsPaths.SplitsFirst` | fisopfs/utilidades.c:67-89 | the first slash takes it apart from the front |
| `FsPaths.ComponentsUnique` | fisopfs/utilidades.c:67-89 | a normalised path has one list of components |
| `FsPaths.CutToParent` | fisopfs/utilidades.c:5-42 | cutting a character buffer in place gives that parent |
| `FsTree.PlaceGood` | fisopfs/entrada_directorio.c:59-93 | insertion always finds a slot, keeps the count exact and below a capacity of 5 * 2^k |
| `FsTree.LookupIs` | fisopfs/fisopfs.c:27-82 | the recursive lookup by first slash follows the components |
| `FsTree.LookupByParent` | fisopfs/fisopfs.c:27-82 | it agrees with looking up the last component in what the last-slash parent finds |
| `FsView.MkdirRefines` | fisopfs/fisopfs.c:231-288 | adds exactly the named path as a directory, or changes nothing; which error when |
| `FsView.CreateRefines` | fisopfs/fisopfs.c:483-544 | adds exactly the named path as an empty file, or changes nothing; which error when |
| `FsView.UnlinkRefines` | fisopfs/fisopfs.c:290-345 | removes exactly the named file; a missing one gives a positive error number |
| `FsView.RmdirRefines` | fisopfs/fisopfs.c:348-409 | removes exactly the named directory, and only when no path extends it |
| `FsView.EmptyMeans` | fisopfs/entrada_directorio.c:293-297 | the occupied count is 0 exactly when no path extends the directory |
| `FsView.TruncateRefines` | fisopfs/fisopfs.c:411-458 | changes exactly the named file's size and keeps the bytes it has room for |
| `FsView.WriteRefines` | fisopfs/fisopfs.c:547-611 | puts the buffer at the offset of exactly the named file and keeps its other bytes |
| `FsView.ReadsView` | fisopfs/fisopfs.c:149-184 | returns the stored bytes |
| `FsView.WriteThenRead` | fisopfs/fisopfs.c:149-184 | what was written is what is read |
| `FsSpace.MountedOk` | fisopfs/fisopfs.c:8-24 | a new file system is well-formed, empty, and counted exactly |
| `FsSpace.UnlinkSpace` | fisopfs/fisopfs.c:337-338 | unlink refunds the header only |
| `FsSpace.DoRefines` | fisopfs/fisopfs.c:231-611 | every operation keeps the tree well-formed and touches no path but its own |
| `FsSpace.SpaceAccounting` | fisopfs/fisopfs.c:242-286 | over any run the counter is the image length plus the content bytes of files unlinked, and once within the maximum stays there |
| `FsSpace.Untouched` | fisopfs/fisopfs.c:231-611 | a path no operation names shows the same after any run |
| `FsImage.HeadRound` | fisopfs/entrada_archivo.c:89-109 | the common record reads back from its bytes |
| `FsImage.FileRound` | fisopfs/entrada_archivo.c:47-109 | a file record and its content read back |
| `FsImage.DirRound` | fisopfs/entrada_directorio.c:169-290 | a directory, saved recursively and followed by anything, reads back with its empty slots last |
| `FsReload.RoundTrip` | fisopfs/fisopfs.c:614-649 | loading a saved image consumes exactly its bytes, gives the compacted tree, and saving that again gives the same bytes for the same raw pointers; the image has the length accounted for |
| `FsReload.ReloadSame` | fisopfs/entrada_directorio.c:169-248 | every path shows the same after a reload, and the counter is the same |
| `FsReach.RunLaid` | fisopfs/entrada_directorio.c:21-56 | a directory's capacity stays within the space limit over any run |
| `FsReach.EmptySound` | fisopfs/fisopfs.c:8-24 | a new file system within such a limit is one a session can start with |
| `FsReach.SessionUntouched` | fisopfs/fisopfs.c:187-228 | a path no call names shows the same after any calls and remounts |
| `FsReach.ReachableRoundTrip` | fisopfs/fisopfs.c:187-228 | every tree that calls and remounts reach from an empty file system under a limit below 2^64 has the round trip |
| `FsNodes.DirNode.constructor` | fisopfs/entrada_directorio.c:96-133 | a new directory's slot array |
| `FsNodes.DirNode.FillEmpty` | fisopfs/entrada_directorio.c:4-18 | fills the slots past the occupied count |
| `FsNodes.DirNode.Grow` | fisopfs/entrada_directorio.c:21-56 | reallocates and fills a full array |
| `FsNodes.DirNode.Put` | fisopfs/entrada_directorio.c:59-93 | first empty slot, then growth |
| `FsNodes.DirNode.Clear` | fisopfs/fisopfs.c:313-342 | the scan of unlink and rmdir empties the first slot of that name and kind, unless it is a directory in use |
| `FsNodes.WriteBack` | fisopfs/fisopfs.c:27-82 | a change of a looked-up entry is stored in the slot arrays on its path and changes the tree there only |
| `FsNodes.FileNode.Realloc` | fisopfs/fisopfs.c:437-444 | the kept bytes are copied, what comes after them is whatever memory held |
| `FsNodes.FileNode.CopyIn` | fisopfs/fisopfs.c:603 | the buffer replaces exactly its range of the content array |
| `FsNodes.Stream.WriteFile` | fisopfs/entrada_archivo.c:88-109 | appends the record and content |
| `FsNodes.Stream.WriteDirectory` | fisopfs/entrada_directorio.c:250-290 | appends the record, then the entries, empty slots skipped |
| `FsNodes.Stream.ReadFile` | fisopfs/entrada_archivo.c:47-85 | moves the cursor over a record and its content, or fails |
| `FsNodes.Stream.ReadDirectory` | fisopfs/entrada_directorio.c:169-248 | the recursive load, cursor and failures included |
| `FsNodes.Stream.ReadEntry` | fisopfs/entrada_directorio.c:197-235 | reads the kind ahead and sets the cursor back |
| `FsNodes.FileSystem.FindEntryRec` | fisopfs/fisopfs.c:27-67 | the scan and recursion of lookup |
| `FsNodes.FileSystem.FindEntry` | fisopfs/fisopfs.c:70-82 | lookup of a path |
| `FsNodes.FileSystem.Mkdir` | fisopfs/fisopfs.c:231-288 | updates the tree and the counter in place; result and state are those `FsView.MkdirRefines` describes |
| `FsNodes.FileSystem.Create` | fisopfs/fisopfs.c:483-544 | updates the tree and the counter in place; result and state are those `FsView.CreateRefines` describes |
| `FsNodes.FileSystem.Unlink` | fisopfs/fisopfs.c:290-345 | scans and clears the parent's slot array; exactly the named file is gone, or no path shows a difference; it succeeds exactly when there is such a file |
| `FsNodes.FileSystem.Rmdir` | fisopfs/fisopfs.c:348-409 | scans and clears the parent's slot array; exactly the named directory is gone, which succeeds exactly when nothing is below it |
| `FsNodes.FileSystem.Truncate` | fisopfs/fisopfs.c:411-458 | reallocates the content array; exactly the named file has the new size and the bytes that fit, and every other path shows the same |
| `FsNodes.FileSystem.Write` | fisopfs/fisopfs.c:547-611 | reallocates and overwrites the content array; exactly the named file holds the buffer at the offset and its other bytes as before |
| `FsNodes.FileSystem.Flush` | fisopfs/fisopfs.c:614-649 | writes the image |
| `FsNodes.FileSystem.Init` | fisopfs/fisopfs.c:187-228 | mounts an image or fails |

## Left out

- KernelCalls.SysPageMapM: the arrays are followed only while the count of the page found is below 65535; `Syscalls.MapKeepsIff` says on values what happens at 65535.
- KernelCalls.EnvPageMapM: the same.
- Syscalls.Exec: after an unsound mapping the counts are wrong and nothing is claimed about the rest of the run.
- Pmap.Kernel.PageInsert: the count of the page inserted is below 65535.
- KernelCalls.HwFill: translations of pages below UTOP; that the TLB may also hold parts of the self-mapping at UVPT is not modelled.
- CowRuns.CowRefinesEager: for environments that use neither PFTEMP nor page IPC and access only pages they see, without their exception stacks; each `duppage` and each run of the fault handler is one step; `CowRuns.CountsFit` asks that a page handed on is mapped fewer than 65534 times.
- CowFork.ForkEffect: the calls of one fork in a row; `CowRuns.WholeFork` has it with others in between. The exception stack page is not part of the views compared.
- ForkV0.ForkZeroEffect: from a state in which no frame has two writers; sharing a page mapped 65535 times is an outcome of its own; `sfork`, which only panics, is not modelled.
- SchedRuns.NoStarvation: time is counted in timer ticks that find an environment running, the only ones the code charges.
- SchedRuns.Demotion: the model's tick counters are unbounded; `time_slices` overflows after 2^31 ticks.
- Fault.FaultIdentity: for handlers that return with their stack pointer at the frame and do not write over it or the frames above, and a trap-time stack pointer of at least 4.
- Fault.Processor.PageFaultHandler: the store of the frame is taken to go upwards, so that it faults at its first word when the page below is missing.
- SieveRuns.FinalState: `pipe` and `fork` succeed; each process is a state machine over its system calls, and printing is not modelled.
- FsView.MkdirRefines: the parent exists and the name is fresh, as FUSE guarantees.
- FsView.CreateRefines: the parent exists and the name is fresh, as FUSE guarantees.
- FsView.UnlinkRefines: the parent exists, as FUSE guarantees.
- FsView.RmdirRefines: the parent exists, as FUSE guarantees.
- FsView.ReadsView: the offset is inside the file, as FUSE guarantees.
- FsView.WriteRefines: bytes between the old end and the offset are whatever memory held; the model takes them as a parameter.
- FsNodes.Stream.ReadDirectory: a slot count above the capacity, a name without terminator and a root record of another kind are undefined behaviour of the code and fail here.
- FsReload.RoundTrip: raw pointers, padding and unused buffer bytes of the records are parameters.
- FsNodes.FileSystem.Write: between calls the tree is a value; a call opens the slot arrays and the content array it changes, and `FsNodes.WriteBack` stores them along the path, where the code follows one pointer.
- Paths of exactly MAXIMO_PATH bytes, which overrun the buffers they are copied to.
- Address spaces are identified by the frame of their directory; the checks of `envid2env` on page calls are modelled with the scheduler, not with the page tables.
- The transfer of a page by IPC; its outcome is a parameter of the calls in `Sched.dfy`.
- Boot code, device code, kernel mappings above UTOP (a fixed shared part), large pages, and assembly context switching (atomic).
- Console output, execution history and counters of runs and calls; round-robin scheduling.
- Timestamps, owners, modes, allocation failure, `getattr`, `readdir`, `utimens` and command-line parsing in fisopfs.
