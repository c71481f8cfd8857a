# JOS, verified

A Dafny model of the hard parts of JOS, a small multi-CPU x86 kernel with a user library, and
proofs about it. `dafny verify dfyconfig.toml` checks everything.

The model follows the code, statement by statement where it works in place. It comes in layers.

* **Physical pages and page tables** (`Mmu`, `Pmap`, `Paging`, `PageTables`, `PageInit`,
  `Regions`). The allocator's free list and 16-bit counts, and two-level page tables that live in
  the same pages. `Pmap` says on values what each operation does and proves what it keeps; class
  `PageTables.Pages` carries the operations out on arrays with a linked free list, and each method
  is tied to its function in `Pmap`. Links (directory roots, directory entries, page table entries)
  are the counted references; `pins` are the counts that no link accounts for. `Regions` has the
  static mappings of the kernel.
* **Environments and system calls** (`Envs`, `EnvVm`, `Directories`, `Syscalls`, `IpcCalls`,
  `Perms`, `PermCalls`, `Kernel`, `Runs`, `KernelMap`). Identifiers, set-up and tear-down of address
  spaces, the kernel's half of every page directory, the memory and IPC calls, and theorems about
  whole runs of them. `Syscalls` is about perms below 4096, `PermCalls` about all of 32 bits. Class
  `Kernel.Kernel` is the in-place version.
* **Copy-on-write fork** (`CowFault`, `CowRefine`, `CowSteps`, `CowFork`, `CowLoss`, `CowReturns`,
  `ForkLib`, `DumbFork`). The fault handler and fork over the system calls, as a refinement of eager
  copying, when their steps succeed and what is lost when memory is short, and the eager duppage of
  `user/dumbfork.c`.
* **The TLB** (`Tlb`), with its cache of directory entries, for one processor and the part of the
  address space that changes.
* **Exception upcalls** (`Upcall`, `Handed`). The kernel's UTrapframe, what the C handler is given
  in it, and the fifteen instructions of `_pgfault_upcall` over registers and byte memory, with
  faults nesting anywhere.
* **Several CPUs** (`Smp`, `SmpLock`, `SmpTable`, `SmpMoves`, `SmpRuns`, `SmpWaiting`, `SmpBreaks`,
  `Sched`, `Ipc`). Traps, the big kernel lock, zombie collection, scheduling and IPC as a state machine with
  one write to shared state per step.
* **Algorithms** (`Kdebug`, `Numbers`, `Scan`, `Printfmt`, `Formats`, `Escapes`, `Memory`).

## Where the code departs from its comments

The model does what the code does.

* `kern/syscall.c:198` counts a reference that `page_insert` counts again. Nothing ever gives it
  back: it is a pin (`Runs.AllocatedForGood`). `kern/syscall.c:200` then frees a page that still
  has that count, which panics (`Syscalls.PageAllocReturns`). `kern/syscall.c:197` returns a
  positive `E_NO_MEM`.
* `kern/syscall.c:269` looks the environment up without checking the caller's permission.
* `kern/env.c:125` leaves the last free-list link at `&envs[NENV]`, so `env_alloc` never returns
  `-E_NO_FREE_ENV` (`Kernel.Kernel.EnvInit`). Allocation is stated for a list that is not exhausted.
* `page_free` does not notice that the last page of the free list is freed again
  (`PageTables.Pages.PageFree`).
* `sys_page_alloc` and `sys_page_map` or a perm of up to 32 bits into the entry. Bits above the low
  twelve that are not bits of the page's address make the entry name another page
  (`PermCalls.AllocExact`, `PermCalls.MapExact`); a send refuses them (`PermCalls.SendLow`).
* `region_alloc` ignores a failing `page_insert`, which loses the page (`EnvVm.RegionAllocLoses`).
* `fork` takes the positive `E_NO_MEM` of `sys_page_alloc` for success: the child then runs without
  an exception stack (`CowFork.ForkCopies`). So does `pgfault`: with nothing mapped at PFTEMP its
  copy then faults and the nested handler panics, with something left there it is copied over
  (`CowFault.PgFault`, `ForkLib.PgFault`).
* A trap with esp exactly at UXSTACKTOP is not restored: the return address lands on the saved esp,
  which is harmless for code at UXSTACKTOP - 4 only (`Upcall.TopLoses`, `Upcall.FaultExact`).
* The test for an overflow at `kern/pmap.c:446` makes a region that reaches the top of memory one
  page short, and some regions near the top too long (`Regions.RegionExact`).
* `duppage` is two system calls; a store of the parent to the page in between reaches the child
  (`CowFork.GapWriteLeaks`), so its copy of a writable page is that of the second call
  (`CowFork.CopyHolds`).
* `sys_env_set_status` on a running environment, or one that waits for a message or in a ring, and
  `env_destroy` on a dying one break the exclusivity of running environments
  (`SmpWaiting.SetStatusExact`, `SmpBreaks.ExclusivityLost`, `SmpBreaks.RunsTwice`,
  `SmpWaiting.DestroyExact`).
* `stab_binsearch` answers for a successor address when there are entries for both, and returns a
  range also for an address below every entry (`Kdebug.SuccessorTakesOver`, `Kdebug.EmptyRange`).
* `printnum` pads with dashes on the left for the `-` flag (`Numbers.DashPadding`), and `%d` prints
  the sign before the padding (`Formats.SignedReadsBack`).
* `user_mem_check` tests a page even for an empty range that does not start on a page boundary
  (`Memory.UserMemCheck`), and does not look at a range that reaches the last page of the address
  space, as its rounded end wraps to 0 (`Memory.TestedIsRange`).
* A zero after the dot of an escape is the padding flag, so a precision of 0 cannot be written and
  `%.0s` prints the whole string (`Escapes.StringLaidOut`).
* A star in an escape that turns out not to be recognized consumes its argument all the same
  (`Formats.UnrecognizedPrints`).

## Model

| member | source | states |
|---|---|---|
| CowRefine.CowRefinesEager | lib/fork.c:14-135 | refinement over whole runs: after any interleaving of exofork, the two calls of duppage, the calls and the single copied words of pgfault, page allocations, unmaps, stores (also of an environment to the page it is duplicating, and of a fault handler to its own stack) and exits, every environment sees of every page what a machine shows that copies each page in one step and never shares |
| CowFork.ForkCopies | lib/fork.c:97-135 | fork end to end, failing calls included: the child sees the parent's pages below USTACKTOP but the lost ones, for which duppage failed, and a zeroed exception stack if there was memory, and nothing else; parent and bystanders see what they saw |
| CowLoss.ForkLoses | lib/fork.c:97-135 | which those are, said of the state fork starts from: a page the parent maps below USTACKTOP is lost exactly if the page tables for the pages mapped below its own use up the free pages, one of which is the child's directory; so none is lost exactly if there is a page for every table, and the exception stack is there exactly if one more is left |
| CowReturns.ForkReturns | lib/fork.c:97-135 | fork comes to its end, with headroom in the counts and nobody in the way, but for one case: a single page is left for the exception stack and its page table is missing too, where the kernel panics |
| CowFork.CopyHolds | lib/fork.c:61-123 | while the parent goes on storing: whatever happens before and after, the child has of each page what the parent had at the call that copies it, the second call of duppage if the page was writable and the first if it was copy-on-write |
| CowFork.DupPageCopies | lib/fork.c:61-79 | duppage of a writable, copy-on-write or read-only page copies that page and its writability on the eager machine if it returns 0, and changes nothing otherwise |
| CowFork.DupPageFails | lib/fork.c:61-79 | it fails exactly when the child needs a page table and memory is out |
| CowFork.MarkNeverFails | lib/fork.c:70-71 | its second call never fails |
| CowRefine.ActStep | lib/fork.c:14-135 | each single step keeps the sharing invariant (a page mapped writable is mapped once, but for a duppage or a fault handler that is at it) and matches the eager step |
| CowSteps.StepHappens | lib/fork.c:14-135 | each step of the runs succeeds exactly if there is memory for its page and page table, the caller may act on the target, and the entry it starts from is of the right kind |
| CowSteps.StepShows | lib/fork.c:14-135 | and then shows what it is for: the zeroed page, the word stored, the parent's page in the child, the private copy with the old contents |
| DumbFork.DupPageStep | user/dumbfork.c:25-38 | the reference, call by call: a page of the child's own with what the parent's page holds, UTEMP free again, nothing else changed for anyone |
| DumbFork.DupPageSucceeds | user/dumbfork.c:25-38 | into a child without the page, with UTEMP free, it comes to its end exactly if the child is the caller's and there is a page for the copy and for each missing page table |
| DumbFork.ChildSees | user/dumbfork.c:25-38 | the child sees what the parent sees, always writable: the views agree exactly if the parent's page is writable |
| CowRefine.CowStart | lib/fork.c:97-135 | runs can start exactly from a kernel in its invariant that maps nothing at PFTEMP, only pages the user may use, and none twice that is mapped writable |
| CowFork.GapWriteLeaks | lib/fork.c:67-72 | why the child must not use a page that is still being duplicated: a store reaches another environment's entry only between the two calls, and the child would see it come exactly if it changes a word |
| CowFault.PgFaultStep | lib/fork.c:14-48 | pgfault without interruption: a private writable copy with the old contents, PFTEMP unmapped again, nothing else changed for anyone |
| CowFault.PgFaultSucceeds | lib/fork.c:14-48 | it succeeds exactly for a copy-on-write page of the user when there is memory for the copy and, where it is missing, for the page table of PFTEMP |
| CowFork.HandlerIsPgFault | lib/fork.c:14-48 | the steps of the runs, one after the other, are pgfault |
| CowFault.CopyWordsStep | lib/fork.c:43 | the copy through user mappings makes the two pages equal and writes no other page |
| ForkLib.PgFault | lib/fork.c:14-48 | the handler in place: panics exactly when not a copy-on-write write fault, a call fails with a negative number, or its copy faults itself, else ends as CowFault.PgFault says |
| ForkLib.DupPage | lib/fork.c:61-79 | duppage in place, also where its first call fails, ends and returns as CowFork.DupPage says |
| ForkLib.Fork | lib/fork.c:97-135 | fork in place, its loop over all pages ignoring failures, whatever other environments are in the middle of, ends as CowFork.Fork says with the child runnable, or with a failed sys_exofork and nothing changed |
| Pmap.Relink | kern/pmap.c:481-542 | when one reference moves and the counts move with it, ownership, counts and free list stay right |
| Pmap.InsertStep | kern/pmap.c:481-493 | page_insert of a page in use or fresh from page_alloc: fails iff a table is needed and memory is out, and then changes nothing; else one entry is put, every other entry, table and page is as before and the counts follow |
| Pmap.InsertTakes | kern/pmap.c:481-493 | what it takes from the free list and gives back: the first page for a missing table, the page that was mapped there if this was its last reference |
| Pmap.WalkStep | kern/pmap.c:414-426 | a creating walk finds the table, hangs a zeroed one, or fails without a trace |
| Pmap.RemoveStep | kern/pmap.c:531-542 | page_remove takes one entry and one count, freeing the page with its last reference |
| Pmap.TakeStep | kern/pmap.c:351-362 | page_alloc, zeroing or not: takes the first free page, which nobody refers to, and changes no entry; page_insert may then be given it |
| Pmap.AllocStep | kern/syscall.c:196-198 | page_alloc(ALLOC_ZERO) and the pp_ref++ of its callers: the count is a pin, every reference stays |
| Paging.InsertIsPut | kern/pmap.c:481-493 | on address spaces as finite maps page_insert is put; re-inserting the same page leaves its count; -E_NO_MEM leaves everything |
| Paging.RemoveIsDelete | kern/pmap.c:506-542 | page_remove is delete and page_lookup is get |
| Paging.CountsTrueUntilWrap | kern/pmap.c:487 | exact limit of the 16-bit count: the counts can be true after a mapping iff the page's count was below 65535 |
| Paging.UvptReads | inc/memlayout.h:150-165 | a load of uvpt[n] reads the entry of page n, or faults where there is no table |
| Paging.UvpdReads | inc/memlayout.h:150-165 | a load of uvpd[i] reads directory entry i |
| Paging.UvptReadOnly | kern/env.c:195-197 | no store to the UVPT window is ever let through |
| PageTables.Pages.PageAlloc | kern/pmap.c:351-362 | pops the linked list, zeroing on demand; the links stay a list |
| PageTables.Pages.PageFree | kern/pmap.c:368-379 | panics iff still referenced or linked; a double free of the last free page is not caught and makes the list circular |
| PageTables.Pages.PageDecref | kern/pmap.c:385-390 | drops a count and frees at zero, never panicking for a page that is not free |
| PageTables.Pages.PgdirWalk | kern/pmap.c:414-426 | in place, equal to Pmap.Walk |
| PageTables.Pages.PageLookup | kern/pmap.c:506-514 | in place: the mapped page or none, changing nothing |
| PageTables.Pages.PageRemove | kern/pmap.c:531-542 | in place, equal to Pmap.Remove |
| PageTables.Pages.PageInsert | kern/pmap.c:481-493 | in place for any 32-bit perm and any count, equal to Pmap.InsertWord with the entry that Perms.EntryOf composes |
| PageInit.PageInit | kern/pmap.c:287-337 | leaves exactly pages 1..npages-1 without the MPENTRY page and the hole up to the first free page, each once, acyclic, descending; all others referenced |
| PageInit.DescendingIsExact | kern/pmap.c:311-336 | that list holds each usable page exactly once and descends |
| PageInit.LowPagesFirst | kern/pmap.c:667-680 | the two-tail relinking in place: low pages, then high ones, still one acyclic list |
| PageInit.PartitionIsStable | kern/pmap.c:667-680 | that order is a stable partition: a permutation, low before high, each side in its old order |
| PageInit.BootInv | kern/pmap.c:287-337 | the state after booting satisfies the invariant with every count a pin |
| EnvVm.SetupStep | kern/env.c:164-200 | a new directory is counted once, has the kernel's half of kern_pgdir, and itself at UVPT for the user to read, maps no user page, takes one page and disturbs nobody |
| KernelMap.KernelStaysMapped | kern/env.c:193-197 | over every run of the system calls, each environment's directory keeps, slot by slot, the kernel's half that kern_pgdir had at the start, and itself at UVPT |
| EnvVm.EnvFreeStep | kern/env.c:425-468 | env_free gives back exactly the environment's references; all others keep theirs and read what they read |
| EnvVm.RegionAllocStep | kern/env.c:300-318 | a round of region_alloc maps a page that was free and that nothing else refers to |
| EnvVm.RegionAllocLoses | kern/env.c:312-317 | it keeps the allocator's invariant exactly if memory is out altogether or there is room for a page table; otherwise the page is lost, the failure of page_insert being ignored |
| EnvVm.Teardown | kern/env.c:164-473 | set-up, any allocations of private pages, mappings of shared ones and removals, tear-down: all other references unchanged and exactly the old free pages free |
| Envs.IdsArePositive | kern/env.c:222-228 | every identifier is positive and ENVX names the slot |
| Envs.IdsRepeat | kern/env.c:222-228 | a slot's identifiers repeat exactly every 2^19-1 allocations, with 32-bit wraparound |
| Envs.StaleIdRefused | kern/env.c:75-109 | envid2env refuses a dead identifier until then and finds a live one, with permission checked only for itself and its parent |
| Kernel.Kernel.EnvInit | kern/env.c:117-131 | the free list runs through all slots in order and ends at &envs[NENV], not at NULL |
| Kernel.Kernel.EnvSetupVm | kern/env.c:164-200 | in place, equal to EnvVm.SetupVm |
| Kernel.Kernel.EnvAlloc | kern/env.c:210-290 | in place: memory, record, identifier and free list as Syscalls.EnvAlloc says, nothing on failure |
| Kernel.Kernel.EnvFree | kern/env.c:425-473 | in place, nested loops over directory and tables, ends as Syscalls.FreeEnv says |
| Kernel.Kernel.Envid2Env | kern/env.c:75-109 | in place, equal to Envs.Envid2Env |
| Kernel.BootKernel | kern/env.c:117-131 | the invariant of the system calls holds after booting |
| Syscalls.PageAllocStep | kern/syscall.c:178-204 | for a perm below 4096: success maps a zeroed page nobody referred to, pinned for good; any other return changes nothing |
| Syscalls.PageAllocReturns | kern/syscall.c:178-204 | every return value and when; the panic behind page_free comes exactly when a well-formed request needs a table and one page is left |
| Syscalls.PageMapStep | kern/syscall.c:222-251 | for a perm below 4096: success maps the source page with the permissions asked, writable only if the source was; errors change nothing |
| Perms.NamesPage | kern/pmap.c:491 | an entry names the page it was asked for exactly if the upper 20 bits of perm lie within the page's frame bits |
| Perms.EntryBits | kern/pmap.c:491 | the composed entry bit by bit: frame bits of the page or of perm, flags of perm and the present bit |
| PermCalls.AllocExact | kern/syscall.c:178-204 | sys_page_alloc for any 32-bit perm: success keeps the invariant exactly under that condition |
| PermCalls.MapExact | kern/syscall.c:222-251 | sys_page_map likewise |
| PermCalls.AllocStores | kern/syscall.c:178-204 | a successful sys_page_alloc leaves the composed entry for the first free page, whichever page it comes to name |
| PermCalls.MapStores | kern/syscall.c:222-251 | a successful sys_page_map leaves the composed entry for the source's page |
| PermCalls.SendLow | kern/syscall.c:353-357 | a send needs no such condition: its test refuses exactly the perms that would name another page, and does with the others what their low bits say |
| Syscalls.PageMapReturns | kern/syscall.c:222-251 | every return value and when |
| Syscalls.PageUnmapStep | kern/syscall.c:260-274 | one entry goes and an absent one is no error; the other return values and when |
| Syscalls.ExoforkStep | kern/syscall.c:78-98 | a new environment that maps nothing and answers to its parent, nobody else touched; fails exactly when memory is out |
| Syscalls.EnvAllocStep | kern/env.c:210-290 | env_alloc: the whole record of the new environment, its identifier the next of its slot, its address space empty; the first slot and the first page go, nothing else changes, and without a page nothing does |
| Syscalls.FreeEnvStep | kern/env.c:425-473 | its entries go, no other entry, and what others map reads as before |
| Syscalls.IpcSendStep | kern/syscall.c:314-368 | memory changes only on success, by one entry at the receiver's address |
| Syscalls.IpcSendReturns | kern/syscall.c:314-368 | every return value and when; a page is mapped exactly when both sides ask for one and the call succeeds |
| IpcCalls.SendArrives | kern/syscall.c:343-367 | a send to a receiving environment returns 0 exactly if a page sent is one the sender has, with permissions it has, and there is room for it if one is wanted; then the receiver is runnable, no longer receiving, and has value, sender, env_ipc_perm and the page at its dstva, and no other record changes; else nothing changes |
| IpcCalls.SendWaits | kern/syscall.c:320-342 | a send to one that is not receiving returns -E_IPC_NOT_RECV and leaves every message; with room in the ring the sender is blocked and stands at its back, else no status and no ring changes |
| IpcCalls.RecvBlocks | kern/syscall.c:381-403 | a receive leaves the caller receiving, at the dstva it gave and blocked, takes the front of its ring, wakes that sender if it is alive and changes no other status; a bad dstva changes nothing |
| IpcCalls.ReceiveThenSend | kern/syscall.c:314-403 | after a receive the next acceptable send by anyone arrives: it returns 0, and leaves the receiver runnable with value, sender and permissions as sent and the page at the dstva it gave |
| Syscalls.IpcFlagsSubset | kern/syscall.c:343-359 | the receiver's flags are a subset of the sender's |
| Syscalls.FailedSendLeavesMessages | kern/syscall.c:320-357 | a failed send changes no value, from or recving field |
| Syscalls.UserStoreStep | inc/mmu.h:60-68 | a user store changes one word of one mapped page and can reach no table, count or list |
| Kernel.Kernel.SysPageAlloc | kern/syscall.c:178-204 | in place for any 32-bit perm, equal to PermCalls.SysPageAlloc32 |
| Kernel.Kernel.SysPageMap | kern/syscall.c:222-251 | in place for any 32-bit perm and any count, equal to PermCalls.SysPageMap32 |
| Kernel.Kernel.SysPageUnmap | kern/syscall.c:260-274 | in place, equal to Syscalls.SysPageUnmap |
| Kernel.Kernel.SysExofork | kern/syscall.c:78-98 | in place, equal to Syscalls.SysExofork |
| Syscalls.SetStatusStep | kern/syscall.c:107-126 | every return value and when; one status changes, of the caller or its child, no other field or record, and memory and the invariant are kept |
| Kernel.Kernel.SysEnvSetStatus | kern/syscall.c:107-126 | in place, the function of Syscalls.SetStatusStep: only statuses of the caller or its children change, and only to the status given, on success |
| Kernel.Kernel.SysIpcTrySend | kern/syscall.c:314-368 | in place for any 32-bit perm, equal to PermCalls.SysIpcTrySend32, which is the send that IpcCalls.SendArrives and IpcCalls.SendWaits are about or the refusal of PermCalls.SendLow |
| Kernel.Kernel.SysIpcRecv | kern/syscall.c:381-403 | in place, equal to Syscalls.SysIpcRecv, the receive that IpcCalls.RecvBlocks is about |
| Runs.RunConserves | kern/syscall.c:196-203 | reference conservation over runs of all memory calls: pp_ref is the number of places that name the page plus the never-returned increments, and the free list is exactly the pages with neither; for perms of 32 bits that name the page, as PermCalls.AllocExact says they must |
| Runs.CallTakesEffect | kern/syscall.c:178-403 | a call of such a run that succeeds does what it is for: the fresh zeroed page or the source's page with the permissions asked, the entry gone, the message at the receiver, the status set, the environment new or gone, the word stored |
| Runs.AllocatedForGood | kern/syscall.c:198 | a page from sys_page_alloc never becomes free again, whatever happens to its mappings |
| Runs.WriteAccessNotManufactured | kern/syscall.c:244-250 | a page nobody maps writable stays so, over such a run, until it is freed |
| Tlb.TlbCoherent | kern/pmap.c:548-554 | over any sequence of allocations, insertions of pages in use and of fresh ones, removals, switches, halts, set-ups, tear-downs and program loadings every translation and every directory entry, of the user's half and the kernel's, that the processor may have cached is what the loaded tables give, also where walks start from a cached directory entry, and the loaded directory has the kernel's half |
| Tlb.StepCoherent | kern/pmap.c:531-554 | each operation keeps that, with its invalidation skipped for tables that are not loaded |
| Tlb.OpTakesEffect | kern/pmap.c:531-554 | and does what it is for: a walk is cached, an entry is put or gone, the directory is loaded, the environment there or torn down |
| Tlb.EnvTranslates | inc/memlayout.h:150-165 | user pages and the UVPT window translate by the entries of the environment |
| Tlb.FreeOp | kern/env.c:435-468 | tearing down a loaded or an unloaded address space leaves nothing stale |
| Upcall.FaultInvisible | lib/pfentry.S:34-95 | a fault and its handling, nested to any depth and at any instruction of the upcall, restores all registers, eflags, eip, esp and every byte the interrupted code keeps at or above esp |
| Upcall.FaultExact | lib/pfentry.S:34-95 | this holds exactly if esp was not UXSTACKTOP, or the code was at UXSTACKTOP - 4 |
| Upcall.TopLoses | lib/pfentry.S:66-94 | at UXSTACKTOP, with nested faults or without, the code goes on with esp just past its own eip (or, for an eip at that address too, at one of two places) |
| Upcall.TopHappens | lib/pfentry.S:34-95 | and such a fault does run to its end |
| Upcall.MidStep | lib/pfentry.S:37-94 | each instruction keeps what the rest of the upcall relies on |
| Upcall.NeededKeepable | kern/trap.c:442-445 | the reserved word and the placement of nested frames leave everything still needed out of reach |
| Upcall.PushMid | kern/trap.c:442-456 | the UTrapframe holds the trap-time state in the layout the upcall reads |
| Handed.CallSees | kern/trap.c:442-456 | what the C handler is called with, whatever nested faults struck on the way: the address of the frame on top of its stack, and in the frame, word by word in the order of struct UTrapframe, the fault address, the error code and the interrupted state; registers unchanged but eax |
| Handed.CallReached | lib/pfentry.S:34-40 | every fault that is handled gets to that call |
| Handed.FaultHappens | kern/trap.c:442-456 | a fault at any address and with any error code can be handled exactly if there is room for its frame in the exception-stack page |
| Upcall.FrameInside | kern/trap.c:443-448 | the one-byte check suffices: accepted frames lie in the exception-stack page, clear of the return slot except for esp == UXSTACKTOP |
| Upcall.DepthBound | kern/trap.c:443-448 | the depth of a handled fault: at most 73 if no fault strikes above the frame being unwound, and at most one for every 4 bytes of stack if they may |
| Upcall.DepthAtTop | kern/trap.c:443-448 | the same at UXSTACKTOP: at most 73, or bounded by the address space if faults may strike above the frame being unwound |
| Upcall.NestingBound | kern/trap.c:443-448 | if each fault strikes at or below the frame of the one before, at most 73 frames are accepted, each wholly inside the page |
| Upcall.NestingBoundIsTight | kern/trap.c:443-448 | 73 can be reached |
| SmpLock.MutualExclusion | kern/spinlock.c:60-120 | in every interleaving at most one CPU runs locked kernel code and no holding check or assert panics |
| SmpLock.LockedOncePerEntry | kern/trap.c:349-362 | each entry (trap, wake-up, CPU start) acquires exactly once and each exit releases exactly once |
| SmpLock.LockStep | kern/spinlock.c:60-120 | each micro-step of taking and giving up the lock keeps the lock word, the owner and the CPUs consistent |
| SmpRuns.Exclusive | kern/env.c:480-559 | whenever the lock is free, an environment is RUNNING or DYING exactly when it is curenv of exactly one CPU |
| SmpTable.TableStep | kern/trap.c:336-393 | every write of trap handling, env_run, env_free and sched_halt keeps the invariants of the environment table |
| SmpMoves.RecordMoves | kern/env.c:480-559 | what a step does to the record of each live environment, field by field: preempted, started, collected, given a status, destroyed or marked dying, queued, reached by a message, receiving or woken by a receive, and otherwise nothing |
| SmpMoves.FreeMoves | kern/env.c:210-290 | a free slot is left alone by every step but the exofork that takes it, which gives it its next identifier, its parent and a blocked status |
| SmpMoves.ListMoves | kern/env.c:470-473 | the list of free slots: a freed one comes to the front, an allocated one goes from there |
| SmpMoves.BlockedExactly | kern/env.c:531-559 | a live environment becomes NOT_RUNNABLE exactly by a set_status, its own send into a ring, or its own receive: never by being preempted |
| SmpMoves.ReceivingStays | kern/syscall.c:343-400 | one that receives stays blocked and receiving, at its dstva, until it is destroyed or a message reaches it, which makes it runnable with value and sender |
| SmpMoves.YieldComesBack | kern/sched.c:11-42 | over a whole trap: a CPU whose environment yields comes back to user mode with the environment that sched_yield picks running, and the one that yielded runnable or still running |
| SmpMoves.CallComesBack | kern/trap.c:385-393 | a call that leaves its caller running comes back to it |
| SmpWaiting.SetStatusExact | kern/syscall.c:107-126 | sys_env_set_status keeps the machine's invariant exactly if the caller blocks itself, or the target neither runs nor dies and, to be made runnable, waits neither for a message nor in a ring |
| SmpBreaks.ExclusivityLost | kern/syscall.c:107-126 | a run that leaves that limit: a child woken while it waits for a message is run by another CPU and made runnable there by the message |
| SmpBreaks.RunsTwice | kern/syscall.c:391-400 | another: a child woken while it waits in its parent's ring is run by another CPU, and by the parent's own CPU too once the parent receives |
| SmpBreaks.SceneExists | kern/syscall.c:381-403 | both start from states that satisfy every invariant |
| SmpWaiting.DestroyExact | kern/env.c:480-497 | env_destroy keeps it exactly for a target that is not already dying |
| SmpWaiting.BoundedWaiting | kern/sched.c:32-43 | a runnable environment is picked by the (NENV-1)-th yield of any CPU that keeps a curenv |
| SmpRuns.BootedInv | kern/init.c:50-125 | the machine as booted satisfies every invariant |
| Sched.SchedYield | kern/sched.c:11-67 | the scans in place: the first runnable slot round from curenv's, else a still running curenv, else halt, or the monitor if nobody is alive |
| Sched.PicksOne | kern/sched.c:32-41 | that choice is unique |
| Sched.StopsOnlyIdle | kern/sched.c:32-67 | a CPU enters the monitor exactly if nobody is runnable, running or dying, and goes to an environment exactly if one is runnable or its own still runs, and then to such a one |
| Sched.PickedIsCloser | kern/sched.c:32-38 | each pick brings a waiting environment strictly closer |
| SmpRuns.ExactlyOnce | kern/syscall.c:314-403 | what an environment observes is the sequence of successful sends to it, in order, up to one unread message |
| SmpRuns.NotOverwritten | kern/syscall.c:361-366 | a message changes only while the environment is receiving with nothing unread |
| SmpRuns.RingsSound | kern/syscall.c:323-342 | head and tail below 10, at most 9 waiting, a live waiter is blocked and stands in one place of one ring |
| Ipc.EnqueueAppends | kern/syscall.c:326-330 | blocking appends at the back of the queue |
| Ipc.DequeueTakes | kern/syscall.c:391-400 | waking takes from the front, so wake order is blocking order |
| Ipc.QueueBound | kern/syscall.c:325 | the ring is full at exactly nine |
| Kdebug.StabBinsearch | kern/kdebug.c:59-103 | the loops in place compute Answer and bracket the address on every ordered table |
| Kdebug.AnswerBrackets | kern/kdebug.c:59-103 | the last entry of the type at or below the address up to just before the next one, for the address or one that its unbroken successors lead to |
| Kdebug.AnswerIsExact | kern/kdebug.c:81-90 | for the address itself unless entries exist both for it and its successor |
| Kdebug.ExactOnEveryRange | kern/kdebug.c:81-90 | a table answers right for an address on all its ranges exactly if it has no entries both for it and for its successor |
| Kdebug.Progress | kern/kdebug.c:64-91 | termination for all inputs: an exact match that only increments addr cannot match again |
| Kdebug.OneBracket | kern/kdebug.c:36-43 | a bracket is unique |
| Kdebug.EmptyRange | kern/kdebug.c:36-43 | left > right comes out exactly when there is no entry of the type, not whenever no entry contains the address |
| Kdebug.SuccessorTakesOver | kern/kdebug.c:85-90 | with entries for 100 and 101, asking for 100 answers 101 |
| Memory.MemMove | lib/string.c:188-206 | the destination gets the source's old bytes however the ranges overlap, nothing else changes |
| Regions.MapRegionMaps | kern/pmap.c:439-454 | boot_map_region maps every page of its region and changes no other address, no count of a page it maps and no page in use but the directory and its tables; it takes one page per missing table and panics exactly if there are too few |
| Regions.RegionExact | kern/pmap.c:445-447 | its region is the one asked for exactly if that could be twice as long below the top of memory, or ends one page below it |
| Regions.RegionInexact | kern/pmap.c:445-447 | up to the top of memory one page is missing, elsewhere the region comes out too long |
| Regions.BootMapRegion | kern/pmap.c:439-454 | in place, equal to Regions.MapRegion |
| Regions.Mmio.MmioMapRegion | kern/pmap.c:561-593 | each call maps the next pages of the MMIO window, so regions never meet or pass its end; it panics exactly if there is no room or no memory for a table |
| Memory.UserMemCheck | kern/pmap.c:615-629 | for every 32-bit address and length: accepts exactly if every byte up to the end of the tested range may be used, else reports the first that may not |
| Memory.TestedIsRange | kern/pmap.c:618-619 | that is the range asked for as long as it ends before the last page of the address space; one of at most 2^32 - 4096 bytes that reaches this page or wraps is accepted without a look, although it contains a byte above ULIM |
| Numbers.RoundTrip | lib/printfmt.c:39-54 | strtol reads back what printnum printed modulo 2^32, so exactly if and only if it is below 2^31; bases 8, 10 and 16, any width, padded with blanks or zeros |
| Numbers.DashPadding | lib/printfmt.c:116-119 | with the '-' flag the round trip holds exactly when nothing was padded or the number is 0 |
| Numbers.PrintNum | lib/printfmt.c:39-54 | padding to the width and then the number without leading zero |
| Numbers.ReadNumber | lib/string.c:239-284 | strtol in place, equal to the function of the round trip |
| Scan.StrtolReads | lib/string.c:239-284 | what strtol is for: blanks, a sign, the prefix of the base or none, digits of either case up to the first character that is none give the number they spell modulo 2^32, signed, and the end pointer just after them |
| Formats.UnsignedReadsBack | lib/printfmt.c:204-231 | every 32-bit integer printed with %u, %o or %x, with any width or none, blanks or zeros, is read back by strtol, and the text fills the width: the interpreter reads the printed width, the printer lays out, the parser reads |
| Formats.SignedReadsBack | lib/printfmt.c:195-202 | %d puts the sign before the padding, so its text reads back exactly when the number is not negative, the padding is zeros or there is none |
| Formats.PointerReadsBack | lib/printfmt.c:217-231 | %p reads back in base 16 and with the base left open |
| Formats.QuotedIsLiteral | lib/printfmt.c:239-241 | text with its percent signs doubled prints as itself, in front of any format |
| Escapes.EscapesTakeTurns | lib/printfmt.c:95-251 | escapes take turns: one with any modifiers prints from its own arguments, one for each star and one for the conversion, and what follows prints from the rest |
| Escapes.LongPrints | lib/printfmt.c:55-83 | %lld and %llu print every 64-bit integer, the latter modulo 2^64 |
| Escapes.CharPrints | lib/printfmt.c:163-165 | %c prints one character, its argument modulo 256 |
| Escapes.ErrorPrints | lib/printfmt.c:168-176 | %e prints the text of the error, of either sign, or its number, which strtol reads back |
| Escapes.ColourPrints | lib/printfmt.c:234-236 | %r prints nothing and takes its argument |
| Escapes.StringLaidOut | lib/printfmt.c:179-192 | %s with or without the flags - and #, any width and any precision: the length of the output, where in it the text stands, each of its characters, and blanks elsewhere |
| Escapes.StringPrints | lib/printfmt.c:179-192 | %s and %0s without precision: the text, (null) for a null pointer, on the right of its padding |
| Formats.UnrecognizedPrints | lib/printfmt.c:243-248 | an unrecognized escape, whatever modifiers precede it, prints as it is written, with nothing lost or doubled; each star among them has consumed an argument, and nothing else has |
| Printfmt.Vprintfmt | lib/printfmt.c:86-251 | terminates for every format despite the backtracking default, never reads past the NUL, prints the meaning of the format |
| Printfmt.Escape | lib/printfmt.c:105-249 | one escape in place: its text, and the cursor after it, or just after its percent sign if it is not recognized |
| Printfmt.PutString | lib/printfmt.c:188-200 | %s: cut to the precision, padded to the width on the side the flag says |
| Printfmt.Sprintbuf.Putch | lib/printfmt.c:269-275 | counts every character and stores those that fit |
| Printfmt.Vsnprintf | lib/printfmt.c:277-292 | the longest prefix of the format's meaning that fits and a NUL, the full length as result, nothing beyond n bytes touched |

## Left out

- Boot, devices and CPU bring-up (boot/, console, lapic, picirq, kclock, mpconfig, the rest of kern/init.c): port I/O and constant data.
- The seventeen other exception handlers with their stubs and upcall setters: copies of the page-fault path.
- load_icode, the loop of region_alloc (one round is EnvVm.RegionAllocStep), the monitor, debuginfo_eip's string handling, the user programs except dumbfork.
- Inline assembly has one-step abstract effects; xchg is atomic and memory is sequentially consistent.
- Cross-CPU TLB shootdown: the code has none. TLB coherence is for one processor, for user pages and the UVPT window; the kernel's own mappings are fixed after boot.
- Regions.BootMapRegion: for regions that do not wrap past the top of memory.
- Regions.Mmio.MmioMapRegion: for a size that does not carry the window's pointer past 2^32, where the test against MMIOLIM would miss it.
- Printing to the console, `%e` of the most negative integer (which indexes outside the error table), and the console colour of `%r`.
- PermCalls.SendLow: of the perm a send records for the receiver (env_ipc_perm) the model keeps the low twelve bits.
- Blocked senders are not promised to run again when the receiver or a queued sender is destroyed; env_ipc_perm keeps its old value when the receiver asked for no page, as in the code.
- Runs.RunConserves: runs assume that every count stays below 65535 before each call, that the list of free environments is not exhausted, and that the upper bits of a perm stored by sys_page_alloc or sys_page_map lie within those of the page; Paging.CountsTrueUntilWrap and PermCalls.AllocExact say what happens otherwise.
- CowReturns.ForkReturns: for counts of less than half their limit, so that one more reference to every page cannot wrap.
- CowRefine.CowRefinesEager: steps that fail (no memory, no permission, a panicking handler) do not occur in the runs, as they change nothing; nobody uses PFTEMP but the handler or shares pages by IPC or sys_page_map other than through duppage; nobody else changes an entry that a duppage or a handler is at; an environment's handler does not fault itself; a child that is not yet runnable does not use a page still being duplicated to it.
- ForkLib.Fork: for runs without the kernel panic of sys_page_alloc; installing the handler before and the upcall after the copying is not part of the memory model.
- Kernel.Kernel.EnvAlloc: for a list of free environments that is not exhausted; past its end the code goes on with &envs[NENV], memory outside the table.
- Kernel.Kernel.SysExofork: likewise.
- SmpRuns.Exclusive: memory and the environment table are separate models; the steps of one trap are interleaved with other CPUs write by write, except that the handler of one system call is one step, as it runs under the lock.
- SmpRuns.RingsSound: runs assume that set_status is used within the limits of SmpWaiting.SetStatusExact, destroy not on a dying environment, and that no identifier is issued again while it still stands in a ring.
- SmpWaiting.BoundedWaiting: counts yields of one CPU; how much time passes between yields is not modelled.
- Upcall.FaultInvisible: the C handler is any code that leaves the saved frames and what the interrupted code keeps alone; where it faults itself is part of its effect. Segment registers are not modelled, and page contents are not tied to the page tables of the other modules. Upcall.TopLoses takes the upcall's code to lie below the exception stack.
- Kdebug.AnswerIsExact: for tables whose entries of one type increase strictly and stay below 0xffffffff. On one range it goes one way, since with entries for an address and its successor the answer depends on which the search meets first; over all ranges it is exact (Kdebug.ExactOnEveryRange).
- Printfmt.Vprintfmt: arguments are a list of integers and strings; a missing one reads as 0 or "(null)", and how many stack words an argument takes is not modelled.
