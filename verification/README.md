# Verified model of the RISC-V emulator

This project models the emulator's hardest parts and proves what its fast paths, protocols and
algorithms promise. `dafny verify dfyconfig.toml` checks all of it.

**Address translation and its caches.** `Paging` is the reference walk, with its A and D updates, once
for Sv32 and Sv39. `Tlb` is the 16-set, 4-way cache of it, `Icache` the epoch-invalidated instruction
cache. `TlbProofs` shows that the cache is invisible and that each scope of SFENCE.VMA restores
coherence (sections 4.2.1, 4.3.2 and 4.4 of the RISC-V Privileged Architecture, version 20211203);
`Icache.HistorySound` says what a hit can be after any history. `Mmu` is the walker and the TLB in place.
`AccessRules` says which accesses translate, to what and with what update, on the bits of the table words.

**The RV32 core.** `Core32.Step` is `Core::step` with and without caches. `Live` records, from a
Reference run alone, what may still be cached, and states the discipline: an edit of page tables or code
is fenced before it is used. `CoreProofs.RunAgrees` shows that every disciplined run gives the same step
results, hart states and RAM in both modes; `LiveProofs` shows that a step is allowed while the record agrees
with memory, `LiveRuns` that runs which leave tables and code alone need no fence at all, and `FencedRuns` that
fencing each edit by the fence of its scope is enough.
`StepProofs`, `PreciseTraps` and `LegalSteps` prove, for every run, disciplined or not, that a step always
has a defined outcome, that traps are precise and that states stay legal; `MemoryEffects`, that RAM is a
byte memory of which a step changes at most one word besides A and D bits. `ReservedRuns` proves LR/SC atomicity
over every run. `InstructionEffects`, `SystemInstructions` and `MemoryInstructions` give what each kind of instruction
leaves, in registers, bytes and cause numbers, and `FenceEffects` what fences leave of caches and record.
`Machine32` is the core in place.

**The RV64 core.** `Core64` is commit, traps and the floating-point rules. `Fast64.Step` is the core from fetch
to commit with and without caches, over arbitrary instructions and devices; `Live64` is its discipline and
`Fast64Proofs.RunAgrees` its run theorem. `InstructionEffects64` gives what a step makes of what is asked.

**Privilege and CSRs.** `Hart` holds interrupt selection, trap entry, MRET, SRET and the CSR file of both
cores; `HartProofs` and `CsrProofs` prove the trap stack round trips (section 3.1.6.1 of the same document),
the WARL invariant and the write-back law.
`StatusWords` and `StatusRuns` are mstatus as the word the program masks: over every run of both cores it is
a fixpoint of `sanitize_mstatus` and the word of the fields. `TrapRules` gives interrupt priority and trap entry by
the numbers that a handler reads, `CsrRules` who may access which CSR and what a write is read back as.

**The bus.** `SystemBus` routes to sorted disjoint devices behind a last-device shortcut; `Reservations`
proves LR/SC atomicity over event histories (section 8.2 of the RISC-V Unprivileged ISA, version 20191213);
`Endian` is RAM.

**Devices.** `Plic` is the gateway, claim and complete protocol with its cached best source, `PlicService` its
registers and one service over a run. `Virtqueue`
has guest memory and descriptor chains (section 2.6 of VIRTIO 1.1), `BlockRequest`, `BlockDevice` and
`VirtioBlock` the block device over memory storage, `NetState` and `VirtioNet` the network device. `UsedRing` and
`ReturnedChains` prove what both leave in the used ring, `RequestRules` and `NetRules` which requests and frames
succeed and how.

**Algorithms.** `MultiplyHigh` (section 7.1 of the Unprivileged ISA) and the device-tree patcher
`DeviceTree`, `DeviceTreeSpec`, `DeviceTreeRules`, `DeviceTreePatch` (sections 5.2 and 5.4 of the Devicetree
Specification).

Each specification is a function; the classes beside it update their fields as the program does and are
proved to compute that function, so the lemmas about the function hold of them.

What the proofs found false of the code is stated with an input and its exact condition. An instruction can
outlive a fence elsewhere in its superpage (`LiveProofs.SuperpageFenceLeavesCode`, `Icache.FenceExact`). A hit
on a global entry can skip an A or D update when roots do not share the leaf (`TlbProofs.UnsharedMisses`,
`TlbProofs.UnsharedHit`). A second PLIC claim before completion can lose a level interrupt for good
(`Plic.SecondClaimLoses`, `Plic.LosesExactlyByOverwriting`, `Plic.LostUntilReasserted`). The block device takes a
chain that never ends when it fills the queue (`BlockDevice.LoopingChainIsServed`,
`BlockRequest.AcceptedChains`).

## Definitions

The functions that carry the model, by the code they follow:

- `Paging.FindLeaf`, `Walk`, `Translate`, `PrivilegeAllows`: core64/src/mmu.cpp:51-346, core32/src/mmu.cpp:52-316.
- `Tlb.Probe`, `Insert`, `CachedTranslate`, `Fence`: core64/src/mmu.cpp:348-555, core32/src/mmu.cpp:318-528.
- `Icache.Lookup`, `Insert`, `Clear`, `Fence`: core32/src/frontend.cpp:140-415, core64/src/core.cpp:1664-1808.
- `Core32.FetchDecode`, `RunUnit`, `RunAll`, `Committed`, `Maintain`, `Step`: core32/src/core.cpp:25-499,
  core32/src/frontend.cpp:169-297, core32/src/execute.cpp:78-942, core32/src/trap.cpp:222-402.
- `Hart.MachineTrap`, `SupervisorTrap`, `Mret`, `Sret`, `SelectFrom`, `ReadCsr`, `WriteCsr`,
  `ValidateWrite`: core64/src/trap.cpp:17-236, core64/src/interrupt.cpp:16-120, core64/src/csr.cpp:10-469 and
  their RV32 counterparts.
- `Core64.Execute`, `Retire`, `Step`: core64/src/core.cpp:133-203 and 1289-1531. `Fast64.FetchDecode`, `Ask`,
  `Maintain`, `Step`: core64/src/core.cpp:133-330, 1330-1333, 1434-1464 and 1591-1662.
- `Reservations.Apply`: common/src/system_bus.cpp:93-402. `SystemBus.Added`: common/src/system_bus.cpp:10-47.
- `Plic.SetLevel`, `Claim`, `Complete`, `Read`, `Write`: devices/src/plic.cpp:22-305.
- `Virtqueue.Chain`, `Publish`: devices/src/virtio_net.cpp:497-603. `BlockRequest.Process`, `Serve`:
  devices/src/virtio_block.cpp:371-630. `BlockDevice.Located`, `Write`, `Tick`: devices/src/virtio_block.cpp:170-369.
  `NetState.Tick`, `Apply`: devices/src/virtio_net.cpp:116-702.
- `MultiplyHigh.Unsigned`, `Signed`, `SignedUnsigned`: core64/src/core.cpp:51-96.
- `DeviceTree.Walk`, `Find`, `Patch`: platform64/src/device_tree.cpp:101-216.

## Model

| member | source | states |
|---|---|---|
| Address.SamePageSv39 | core64/src/mmu.cpp:362-374 | Two addresses have the same page number at a page size exactly when they agree above its shift (field form equals the shifts of lookup) |
| Address.SamePageSv32 | core32/src/mmu.cpp:268-292 | The same for the two Sv32 page sizes |
| Address.MapAddsOffset | core64/src/mmu.cpp:226-239 | The mapped address is the leaf's frame plus the address within its page, for every page size of both modes |
| Address.BaseIsMask | core64/src/mmu.cpp:449-459 | The cached physical page is the address with the page-offset bits cleared, for all three Sv39 page sizes |
| Paging.TouchedFields | core64/src/mmu.cpp:203-207 | The update of a leaf sets A, and D for a store, and changes no other field |
| Paging.LeafFound | core64/src/mmu.cpp:125-201 | A walk that succeeds ends in a valid leaf word, whose fields it reports |
| Paging.TouchKeepsLookup | core64/src/mmu.cpp:203-224 | An A or D update of any leaf changes no walk of any address, except for the A and D bits it ends with |
| Paging.SamePageLookup | core64/src/mmu.cpp:125-239 | A walk depends only on the page of the leaf it ends in: every address of that page ends in the same leaf |
| HartProofs.FetchIgnoresStatus | core32/src/mmu.cpp:52-86 | Harts that agree on satp and privilege translate a fetch alike, with the same memory, whatever their MPRV, MPP, SUM and MXR: the instruction-cache key suffices |
| Mmu.RamBus.WalkAddress | core64/src/mmu.cpp:103-256 | The level loop computes the reference walk: same result, same memory, for Sv32 and Sv39 |
| Mmu.TranslationCache.FindEntry | core64/src/mmu.cpp:348-405 | The probe loop over page sizes and ways returns the first usable entry |
| Mmu.TranslationCache.InsertEntry | core64/src/mmu.cpp:407-462 | Insertion takes the first invalid or same-page way, else the round-robin victim, in place |
| Mmu.TranslationCache.TranslateAddress | core64/src/mmu.cpp:464-528 | The cached translation in place: result, memory and cache are those of the specification |
| Mmu.TranslationCache.SfenceVma | core64/src/mmu.cpp:536-555 | The fence loop invalidates exactly the fenced entries |
| Mmu.TranslationCache.Clear | core64/src/mmu.cpp:530-534 | A clear leaves the empty cache, its replacement positions included |
| Tlb.HitIsWalk | core64/src/mmu.cpp:493-504 | A fresh usable entry answers as the walk does, and the walk would have written nothing |
| Tlb.FilledIsFresh | core64/src/mmu.cpp:511-527 | The entry inserted after a walk agrees with the memory the walk leaves, its A and D write included |
| TlbProofs.CacheRefinesWalk | core64/src/mmu.cpp:464-528 | With coherent entries and shared globals the cached translation gives the walk's result and memory for every address, access and privilege state, and coherence survives |
| TlbProofs.FenceRestores | core64/src/mmu.cpp:536-555 | For all four scopes: if tables changed only inside the scope, every surviving entry agrees with the new tables; exactly the entries outside the scope survive |
| TlbProofs.SecondTranslationHits | core64/src/mmu.cpp:424-462 | After a successful translation the same access hits and changes neither cache nor memory |
| TlbProofs.UnsharedHit | core64/src/mmu.cpp:378-399 | When roots agree on a global mapping but keep separate leaf words, a hit gives the walk's address, and the walk's memory exactly when this root's leaf already has the A and D bits needed |
| TlbProofs.UnsharedMisses | core64/src/mmu.cpp:378-399 | A concrete memory with two roots: an access through the first fills an empty cache, and the same access through the second then hits and leaves memory as it is, where the walk sets A |
| TlbProofs.CoveredTranslates | core64/src/mmu.cpp:464-528 | The cache refines the walk whenever every leaf that may still be cached and could serve the access agrees with the tables |
| TlbProofs.CoveredFences | core64/src/mmu.cpp:536-555 | A fence removes from the cache at least what it removes from the record of what may be cached |
| Icache.HitIsContents | core32/src/frontend.cpp:299-342 | A hit returns what the record of insertions holds for the key |
| Icache.InsertSound | core32/src/frontend.cpp:344-376 | An insertion keeps the cache sound and is found again at once |
| Icache.ClearSound | core32/src/frontend.cpp:378-392 | A clear leaves nothing, also when the 64-bit generation wraps |
| Icache.FenceSound | core32/src/frontend.cpp:394-415 | A fence leaves nothing that it covers, for all four scopes, whatever slots collide |
| Icache.FenceExact | core32/src/frontend.cpp:394-415 | For each of the four scopes a fence ends a lookup exactly when the key shares the epoch slot that the fence moves, which every key it covers does |
| Icache.HistorySound | core32/src/frontend.cpp:299-415 | After any history of insertions, clears and fences a hit returns exactly what was last inserted for that address, satp and privilege, with no later clear and no later fence covering its page and ASID |
| Machine32.InstructionCache.Lookup | core32/src/frontend.cpp:299-342 | The lookup in place is the specified one |
| Machine32.InstructionCache.Insert | core32/src/frontend.cpp:344-376 | The insertion in place is the specified one |
| Machine32.InstructionCache.Clear | core32/src/frontend.cpp:378-392 | The clear in place, with the wrap of the generation |
| Machine32.InstructionCache.SfenceVma | core32/src/frontend.cpp:394-415 | The fence in place: the one epoch that its scope names moves |
| CoreProofs.IntegerExcludes | core32/src/execute.cpp:78-245 | execute_decoded accepts a legal kind exactly when execution_unit names the integer unit |
| CoreProofs.PrivilegedExcludes | core32/src/trap.cpp:222-402 | execute_privileged accepts exactly the privileged kinds |
| CoreProofs.ControlFlowExcludes | core32/src/execute.cpp:247-373 | execute_control_flow accepts exactly the control-flow kinds |
| CoreProofs.CsrExcludes | core32/src/execute.cpp:761-883 | execute_csr's own switch accepts exactly the kinds that execution_unit sends to it |
| CoreProofs.AtomicExcludes | core32/src/execute.cpp:567-759 | execute_atomic's own switch accepts exactly the kinds that execution_unit sends to it, and touches nothing otherwise |
| CoreProofs.MemoryExcludes | core32/src/execute.cpp:375-565 | execute_memory's own switches accept exactly the kinds that execution_unit sends to it |
| CoreProofs.DispatchAgrees | core32/src/core.cpp:217-434 | Trying every unit in turn is running the one unit that the kind names, and that unit accepts |
| CoreProofs.CodeFetches | core32/src/frontend.cpp:222-297 | While the tables and bytes of a cached instruction are unchanged, fetching it again gives it back and writes nothing |
| CoreProofs.FetchAgrees | core32/src/frontend.cpp:169-297 | fetch_decode with TLB, decode cache and instruction cache gives what it gives without them |
| CoreProofs.UnitAgrees | core32/src/core.cpp:217-434 | Every execution unit behaves alike through the TLB and without it |
| CoreProofs.MaintainAgrees | core32/src/core.cpp:447-470 | The fences after a commit keep the caches within what may still be cached |
| CoreProofs.StepAgrees | core32/src/core.cpp:100-499 | One step of Fast mode is one step of Reference mode: same result, hart, RAM, reservations and write epoch |
| CoreProofs.RunAgrees | core32/src/core.cpp:100-499 | Over every run that fences its edits before using them, Fast mode and Reference mode show the same results, states and RAM after every step |
| CoreProofs.ResetRunAgrees | core32/src/core.cpp:84-98 | The same from reset, where the caches are empty |
| Fast64Proofs.CodeFetches | core64/src/core.cpp:235-308 | A recorded RV64 instruction, whose halves are all cacheable, is fetched again from memory unchanged and with no effect on the bus |
| Fast64Proofs.FetchAgrees | core64/src/core.cpp:221-315 | RV64's fetch with TLB, instruction cache and decode cache gives the uncached instruction or trap and the same bus; only what is wholly cacheable is kept |
| Fast64Proofs.AskAgrees | core64/src/core.cpp:605-650 | The data access of an RV64 instruction gives the same request and bus through the TLB |
| Fast64Proofs.MaintainAgrees | core64/src/core.cpp:1330-1333 | FENCE.I and a permitted SFENCE.VMA keep the RV64 caches inside the record |
| Fast64Proofs.StepAgrees | core64/src/core.cpp:133-1531 | One RV64 Fast step gives the Reference step's ending, hart and bus |
| Fast64Proofs.RunAgrees | core64/src/core.cpp:133-1531 | RV64's Fast mode gives the same endings, hart states and buses after every step of every disciplined run, whatever instructions and devices do, if reading a cacheable place changes nothing |
| Fast64Proofs.ResetRunAgrees | core64/src/core.cpp:117-131 | The same from empty caches |
| LiveProofs.CoherentMayStep | core32/src/frontend.cpp:169-297 | While every recorded leaf and instruction agrees with memory the next step is allowed, whatever it does |
| LiveRuns.TranslateSpares | core32/src/mmu.cpp:94-213 | A translation changes no word but words of the page tables, and keeps which words those are |
| LiveRuns.StepRecord | core32/src/core.cpp:100-499 | A step that stores to no table word and to no kept instruction, and runs none from table words, leaves the record in agreement with memory, the leaves and instructions it adds included |
| LiveRuns.EditFreeDisciplined | core32/src/core.cpp:100-499 | A run whose DMA and stores miss the table words and the kept instructions, with satp staying among the given spaces, is disciplined without any fence, paged or not and however long |
| LiveRuns.EditFreeAgrees | core32/src/core.cpp:147-169 | So Fast and Reference mode agree from reset over every such run |
| FencedRuns.EditRecord | core32/src/core.cpp:447-464 | An edit of page tables or code within the scope of a fence leaves in agreement everything recorded outside it, instructions by the 4 KiB rule |
| FencedRuns.FenceEnds | core32/src/core.cpp:447-470 | SFENCE.VMA with its operands, or FENCE.I, ends exactly what is recorded in its scope |
| FencedRuns.ScopedStep | core32/src/core.cpp:100-499 | A step that stores within the scope, or commits the fence that was owed, keeps the record in agreement outside what is still owed |
| FencedRuns.FencedRunDisciplined | core32/src/core.cpp:100-499 | A run in which every edit, by DMA or by a store, is followed by the fence of its scope before anything in that scope is used is disciplined |
| FencedRuns.FencedRunAgrees | core32/src/core.cpp:147-169 | So Fast and Reference mode agree from reset over every such run |
| LiveProofs.NothingMayStep | core32/src/core.cpp:447-470 | With nothing recorded any step is allowed on any memory |
| LiveProofs.FullFenceEmpties | core32/src/core.cpp:447-464 | SFENCE.VMA without operands leaves nothing recorded |
| LiveProofs.SuperpageFence | core32/src/frontend.cpp:147-154 | A fence of one page of a 4 MiB leaf ends the leaf, but covers an instruction exactly when it is in the same 4 KiB page |
| LiveProofs.SuperpageFenceLeavesCode | core32/src/frontend.cpp:394-415 | A concrete case: an instruction kept at 0x401000 is still found after a fence at 0x400000 in the same superpage |
| Machine32.Core.TranslateThrough | core32/src/frontend.cpp:24-69 | Translation through the TLB in Fast mode and by the walk in Reference mode |
| Machine32.Core.FetchHalfword | core32/src/frontend.cpp:102-123 | One halfword: translation and bus read |
| Machine32.Core.DecodeRaw | core32/src/frontend.cpp:439-479 | Decoding through the decode cache, in place |
| Machine32.Core.FetchAndDecode | core32/src/frontend.cpp:169-297 | fetch_decode in place is the specified one |
| Machine32.Core.Execute | core32/src/core.cpp:217-434 | The chain of units, each guarded by mode and unit, gives the specified outcome |
| Machine32.Core.MaintainCaches | core32/src/core.cpp:447-470 | SFENCE.VMA and FENCE.I after a commit, in place |
| Machine32.Core.DoStep | core32/src/core.cpp:100-499 | Core::step in place, in both modes, is the specified step |
| Machine32.Core.SetExecutionMode | core32/src/core.cpp:527-536 | A change of mode starts with empty caches; no change of mode changes nothing |
| StepProofs.StepTotal | core32/src/core.cpp:436-445 | No step ends in CoreNotImplemented, in either mode, for every decoder, bus and caches without an illegal instruction, and the caches never come to hold one |
| StepProofs.UnitCommits | core32/src/execute.cpp:885-917 | Every retiring outcome passes the checks of commit_pending |
| StepProofs.StepRuns | core32/src/core.cpp:192-445 | A step that runs an instruction runs the unit its kind names, in both modes |
| PreciseTraps.TrapsArePrecise | core32/src/core.cpp:170-190 | A step that ends in a synchronous trap leaves registers, retired count and satp alone, saves the even pc and the reported value for the mode that delegation names, and changes RAM at most in A and D bits |
| PreciseTraps.TranslateOnlyAD | core32/src/mmu.cpp:189-213 | A translation, cached or not, changes RAM at most by setting A and D bits |
| PreciseTraps.UnitTrapOnlyAD | core32/src/execute.cpp:375-759 | A load, store or atomic that traps has written nothing else |
| MemoryEffects.ReadIsBytes | devices/src/ram.cpp:32-37 | A load of 1, 2 or 4 aligned bytes gives their little-endian value, and fails exactly when their word is not backed |
| MemoryEffects.WriteIsBytes | common/src/system_bus.cpp:115-138 | A write sets each byte it covers to that byte of the value, changes no other byte and no reservation, and moves the write epoch by one; it fails exactly when the word is not backed |
| MemoryEffects.LoadAfterStore | devices/src/ram.cpp:32-45 | A read of what was just written gives the value modulo the width |
| MemoryEffects.LoadElsewhere | devices/src/ram.cpp:32-45 | A read that shares no byte with a write does not see it, for every pair of widths |
| MemoryEffects.StoreThenLoad | core32/src/execute.cpp:375-554 | After a store that retires, a load of the same address and width gives the extension of the stored low part, through any translation that still leads to that word and leaves it alone |
| MemoryEffects.AmoExchanges | common/src/system_bus.cpp:208-272 | An AMO answers the old word, leaves the combined one modulo 2^32 and changes no other byte |
| MemoryEffects.StepWrites | core32/src/core.cpp:100-499 | In either mode a step changes A and D bits and at most one more word, which only a store, an SC or an AMO can; the write epoch moves whenever RAM changes |
| MemoryEffects.RunCounts | common/src/system_bus.cpp:115-138 | Over every run the write epoch never goes back, and RAM at two states with the same epoch is the same: what LR/SC by epoch relies on |
| MemoryEffects.RunFits | core32/src/core.cpp:100-499 | Over every run with any DMA of 4-byte words, every word of RAM stays one of four bytes |
| LegalSteps.DeferredMret | core32/src/trap.cpp:303-357 | RV32's MRET, deferred through PendingCommit and the CSR file, reaches the state of RV64's direct update on all shared fields |
| LegalSteps.DeferredSret | core32/src/trap.cpp:359-402 | The same for SRET, where the commit alone clears MPRV |
| LegalSteps.CommitLegal | core32/src/execute.cpp:919-942 | commit_pending keeps x0 zero, program counters even and tvec, satp, delegation, enables and counters legal |
| LegalSteps.RetireIsTraced | core32/src/core.cpp:473-498 | The trace of a retiring step is the change it made: its register and no other, its next pc, one more instruction retired unless a CSR instruction ran, and the privilege unless a return changed it |
| LegalSteps.StepLegal | core32/src/core.cpp:100-499 | Every RV32 step keeps x0 zero, program counters even and tvec, satp, delegation, enables and counters legal |
| LegalSteps.RunLegal | core32/src/core.cpp:100-499 | The same over every run, fenced or not and in either mode, and every step has a defined outcome; mstatus is the subject of the StatusRuns rows |
| LegalSteps.ResetLegal | core32/src/core.cpp:84-98 | Reset is legal exactly when it starts at an even pc; it hands over the hart id in a0 and the boot argument in a1, with all else cleared; the empty caches hold no illegal instruction |
| Core64.RetireLegal | core64/src/core.cpp:1475-1521 | RV64's commit keeps x0 zero, program counters even and tvec, satp, delegation, enables and counters legal, whatever the instruction computed |
| Core64.StepLegal | core64/src/core.cpp:133-203 | Every RV64 step keeps the same; mstatus is the subject of the StatusRuns rows |
| Core64.RunLegal | core64/src/core.cpp:133-1525 | The same over every run and every sequence of instructions |
| Core64.FloatChangesAreDirty | core64/src/core.cpp:1495-1521 | A step that changes the floating-point state retires, ends with FS Dirty and SD set, and cannot happen while FS is Off |
| HartProofs.StatusRoundTrip | core32/src/csr.cpp:148-161 | mstatus as a word and as fields agree: writing a word made of fields gives the fields back |
| HartProofs.SanitizeIsMask | core64/src/csr.cpp:131-146 | Writing mstatus keeps bit for bit what the mask keeps, with UXL and SXL fixed, a reserved MPP cleared and SD derived from FS |
| StatusWords.SanitizeSettles | core64/src/csr.cpp:131-146 | sanitize_mstatus is idempotent on words, for both cores |
| StatusWords.SettledMeans | core64/src/csr.cpp:131-146 | A word is a fixpoint of sanitize_mstatus exactly when MPP is not reserved, SD is set exactly when FS is Dirty, UXL and SXL are 64-bit and every unimplemented bit is clear |
| StatusWords.SettledHasFields | core64/src/csr.cpp:131-146 | Every fixpoint is the word of some fields: the record of fields leaves nothing out |
| StatusWords.MachineTrapFields | core64/src/trap.cpp:32-42 | Trap entry to machine mode by its masks on the word is the update of the fields |
| StatusWords.SupervisorTrapFields | core64/src/trap.cpp:59-70 | The same for trap entry to supervisor mode |
| StatusWords.MretFields | core64/src/trap.cpp:176-191 | The word that MRET computes by its masks is the word of the returned fields |
| StatusWords.SretFields | core64/src/trap.cpp:200-217 | The same for SRET |
| StatusWords.DirtyFields | core64/src/csr.cpp:159-164 | mark_floating_point_dirty on the word is the update of FS, SD included |
| StatusWords.ViewFields | core64/src/csr.cpp:349-354 | A write of sstatus by its mask replaces the fields of the view and no other |
| StatusRuns.ReturnValue | core32/src/trap.cpp:303-402 | RV32's MRET and SRET hand the commit the word of their masks |
| StatusRuns.StepAgrees64 | core64/src/core.cpp:133-203 | The word that a step's traps, returns, dirty marks and CSR writes leave, each by its masks, is the word of the fields that the step leaves |
| StatusRuns.RunSettled64 | core64/src/core.cpp:133-1525 | Over every RV64 run mstatus stays a fixpoint of sanitize_mstatus, from any fixpoint, and is the word of the fields after every step |
| StatusRuns.StepAgrees32 | core32/src/core.cpp:100-499 | The same for an RV32 step in either mode, whose commit clears MPRV without sanitizing |
| StatusRuns.RunSettled32 | core32/src/core.cpp:100-499 | The same over every RV32 run |
| StatusRuns.ResetSettled | core64/src/core.cpp:115-131 | Reset leaves sanitize_mstatus of zero, a fixpoint, and the word of cleared fields |
| HartProofs.TrapLegal | core64/src/trap.cpp:28-155 | Trap and interrupt entry, delegated or not, keep x0, the program counters and tvec, satp, delegation, enables and counters legal |
| HartProofs.ReturnLegal | core64/src/trap.cpp:171-222 | MRET and SRET keep the same |
| HartProofs.WriteLegal | core64/src/csr.cpp:325-449 | Every CSR write of any value keeps the same: tvec, satp, delegation, enables, counters and even program counters |
| HartProofs.FloatingLegal | core64/src/csr.cpp:330-348 | A write of fflags, frm or fcsr leaves FS Dirty |
| HartProofs.MachineRoundTrip | core64/src/trap.cpp:28-53 | A trap or interrupt into machine mode and then MRET restore pc, privilege and both interrupt enables |
| HartProofs.SupervisorRoundTrip | core64/src/trap.cpp:55-81 | A delegated trap and then SRET restore them; TSR alone can forbid the return |
| HartProofs.NestedRoundTrip | core64/src/trap.cpp:171-222 | Supervisor trap, machine trap, MRET, SRET: the first return resumes the handler, the second the program |
| HartProofs.SelectsFirst | core64/src/interrupt.cpp:89-119 | Selection returns the first cause in the fixed order that its target takes, with the target its delegation names |
| HartProofs.NoneSelected | core32/src/interrupt.cpp:105-141 | No interrupt is selected exactly when no target takes any |
| CsrProofs.WriteBackIsIdentity | core32/src/csr.cpp:401-544 | For every writable CSR a read-modify-write that modifies nothing leaves the hart as it was, interrupt lines asserted or not |
| CsrProofs.MipModifiesSoftwareOnly | core32/include/rv32/core/csr.hpp:65-73 | CSRRS and CSRRC on mip set and clear exactly the writable software bits they name, whatever the lines show |
| CsrProofs.SatpRoundTrip | core64/src/mmu.cpp:270-279 | A legal satp written back is the same satp |
| SystemBus.Bus.AddDevice | common/src/system_bus.cpp:10-47 | An addition keeps the map sorted, disjoint and without overflow, or is refused and changes nothing |
| SystemBus.AddedAllMapped | common/src/system_bus.cpp:10-47 | After any sequence of additions the devices are sorted and pairwise disjoint, and no range overflows |
| SystemBus.SortIsUnique | common/src/system_bus.cpp:36-42 | The sorted arrangement is unique, whatever algorithm sorts |
| SystemBus.CandidateRoutes | common/src/system_bus.cpp:461-478 | Only the last device that begins at or below the address can hold the access |
| SystemBus.Bus.FindDevice | common/src/system_bus.cpp:450-478 | The unique device holding the whole access, or none, whatever lookups came before |
| SystemBus.Bus.UpperBound | common/src/system_bus.cpp:461-467 | The binary search splits the map at the address |
| SystemBus.Bus.InstructionCacheable | common/src/system_bus.cpp:409-433 | Agrees with the device that a byte lookup finds |
| SystemBus.DisjointIsOrdered | common/include/rv/platform/device.hpp:32-40 | For ordered valid ranges, not overlapping means ending before the next begins |
| Reservations.ReservationIsLatest | common/src/system_bus.cpp:140-181 | The reservation in force is that of the hart's latest successful load-reserved, with its address, width and epoch |
| Reservations.EpochCounts | common/src/system_bus.cpp:115-138 | The write epoch stands still exactly while nothing is written, and RAM is then byte for byte the same |
| Reservations.ConditionalIsAtomic | common/src/system_bus.cpp:160-206 | Over any interleaving of harts and DMA a store-conditional succeeds exactly when the hart's latest reservation has its address and width, no store-conditional of the hart intervened and nobody wrote; RAM is then what it was at the load-reserved |
| Reservations.ReservingBus.BusWrite | common/src/system_bus.cpp:115-138 | A write in place, counted by the epoch exactly when it succeeds |
| Reservations.ReservingBus.BusLoadReserved | common/src/system_bus.cpp:140-158 | A load-reserved in place |
| Reservations.ReservingBus.BusStoreConditional | common/src/system_bus.cpp:160-206 | A store-conditional in place: alignment, reservation, mapping and match in the source's order |
| Endian.Ram.Read | common/include/rv/platform/endian.hpp:11-31 | The byte loop computes the little-endian value, or reports that the access is out of range |
| Endian.Ram.Write | common/include/rv/platform/endian.hpp:33-54 | The byte loop stores the little-endian bytes and nothing else, or changes nothing |
| Endian.LoadStored | common/include/rv/platform/endian.hpp:11-54 | A read at the place of a write gives the value truncated to the width |
| Endian.LoadElsewhere | common/include/rv/platform/endian.hpp:11-54 | A read that does not overlap a write does not see it |
| Plic.BestIsBest | devices/src/plic.cpp:231-261 | The scan finds the pending, enabled, above-threshold source of highest priority and lowest id, or 0 exactly when there is none |
| Plic.BestIsUnique | devices/src/plic.cpp:241-258 | There is only one such source |
| Plic.ReachableInv | devices/src/plic.cpp:87-163 | In every state reachable by level changes and register accesses the cached best equals the scan, a source is in service in at most one context, and an in-service source is not pending |
| Plic.LineIsEligible | devices/src/plic.cpp:165-173 | From power-on, a context's interrupt line is raised exactly when some source is eligible for it |
| Plic.LosesExactlyByOverwriting | devices/src/plic.cpp:280-305 | An asserted source is always pending or in service after an operation, exactly when the operation is not a claim over an asserted source still in service |
| Plic.PoliteLosesNone | devices/src/plic.cpp:280-305 | Over every run in which no context claims over an asserted source in service, no level interrupt is lost |
| Plic.LostUntilReasserted | devices/src/plic.cpp:147-163 | A lost source stays lost, whatever else happens, until its line falls |
| Plic.SecondClaimLoses | devices/src/plic.cpp:280-288 | Six operations from power-on lead to a state in which a second claim before completion loses source 1 |
| Plic.Device.ComputeBestPending | devices/src/plic.cpp:231-261 | The loop with running best computes the scan |
| Plic.Device.SetSourceLevel | devices/src/plic.cpp:147-163 | The level change in place keeps the invariant and is the specified one |
| Plic.Device.ClaimSource | devices/src/plic.cpp:280-288 | The claim in place keeps the invariant and is the specified one |
| Plic.Device.CompleteSource | devices/src/plic.cpp:290-305 | The completion in place keeps the invariant and is the specified one |
| Plic.Device.ReadRegister | devices/src/plic.cpp:22-85 | A register read in place, claims included |
| Plic.Device.WriteRegister | devices/src/plic.cpp:87-145 | A register write in place |
| Virtqueue.ChainIsExact | devices/src/virtio_net.cpp:497-546 | load_chain succeeds exactly when NEXT leads from the head, in range, readable and without repetition, to a descriptor without NEXT, and returns that whole path; the loop bound cuts no path short |
| Virtqueue.Pigeonhole | devices/src/virtio_net.cpp:508-545 | A path without repetition is no longer than the queue |
| Virtqueue.ExhaustedIsExact | devices/src/virtio_net.cpp:510-545 | The loop bound is reached exactly by a path through every descriptor whose last still has NEXT |
| Virtqueue.GuestMemory.LoadChain | devices/src/virtio_net.cpp:497-546 | The chain loop with its visited marks is the specified one |
| Virtqueue.GuestMemory.LoadDescriptor | devices/src/virtio_block.cpp:632-665 | The index check, then the four reads of a descriptor |
| Virtqueue.GatherScattered | devices/src/virtio_net.cpp:676-697 | Bytes scattered to distinct addresses read back as they were |
| BlockRequest.AcceptedChains | devices/src/virtio_block.cpp:454-482 | The block device takes a chain exactly when it is whole or runs through all the descriptors of the queue with NEXT still set |
| BlockRequest.WriteChunksIsPut | devices/src/virtio_block.cpp:552-612 | Chunked writing places the whole buffer on the disk, or fails leaving bytes outside the buffer's range alone |
| BlockRequest.ReadChunksIsScatter | devices/src/virtio_block.cpp:552-612 | Chunked reading is one copy of the disk slice, faults included |
| BlockRequest.WritesWhole | devices/src/virtio_block.cpp:529-615 | A write succeeds exactly when its buffers have the right direction, fit the disk and can be read; the disk then holds their concatenation and memory is untouched |
| BlockRequest.ReadsWhole | devices/src/virtio_block.cpp:529-615 | A read never changes the disk; it succeeds exactly when its buffers suit and are backed, and they then hold the disk slice in order |
| BlockRequest.WriteRequest | devices/src/virtio_block.cpp:444-630 | A status-OK write leaves the old disk with the concatenated buffers at sector*512; in memory only the status byte changes |
| BlockRequest.ReadRequest | devices/src/virtio_block.cpp:444-630 | A status-OK read leaves the disk alone, and disjoint buffers equal the slice at sector*512 |
| BlockRequest.WriteThenRead | devices/src/virtio_block.cpp:444-630 | Writing and then reading the same sectors returns the same bytes for any two descriptor splits and anything the guest did in between |
| BlockRequest.ServeKeepsStep | devices/src/virtio_block.cpp:371-442 | Wherever the rings are, the used index keeps step with the chains taken exactly unless there is a request to serve whose used element is backed and whose used index is not |
| BlockDevice.AlignUpIs | devices/src/virtio_block.cpp:14-19 | The mask computation gives the least multiple of a power of two that is not below |
| BlockDevice.PowerOfTwoIs | devices/src/virtio_block.cpp:21-25 | The mask test holds exactly of the powers of two |
| BlockDevice.LocatedIsLaidOut | devices/src/virtio_block.cpp:348-369 | For all registers of a configured queue the table, the available ring and the used ring follow each other, the used ring is aligned and nothing wraps in 64 bits |
| BlockDevice.LaidOutNeverAhead | devices/src/virtio_block.cpp:348-435 | With that layout over RAM, whenever an available head can be read and the used element written, the used index can be written |
| BlockDevice.ConfiguredKeepsStep | devices/src/virtio_block.cpp:371-442 | For every memory, disk and configured queue, the used index keeps step with the chains taken |
| BlockDevice.RunLevel | devices/src/virtio_block.cpp:170-256 | Over every run of register writes and ticks, with any memory at each tick, both positions are level after every operation, the rings lie where the registers put them and the disk keeps its size |
| BlockDevice.PowerOnLevel | devices/src/virtio_block.cpp:328-346 | The same from power-on |
| BlockDevice.LoopingChainIsServed | devices/src/virtio_block.cpp:454-482 | A concrete configured queue of two descriptors that name each other: the request completes with status OK although its chain never ends |
| VirtioBlock.MemoryStorage.Read | devices/src/block_storage.cpp:51-62 | A read in bounds copies the slice; out of bounds changes nothing |
| VirtioBlock.MemoryStorage.Write | devices/src/block_storage.cpp:64-75 | A write in bounds places the bytes; out of bounds changes nothing |
| VirtioBlock.Device.MoveData | devices/src/virtio_block.cpp:513-615 | The loop over data descriptors moves what the specification says, in place |
| VirtioBlock.Device.ProcessRequest | devices/src/virtio_block.cpp:444-630 | process_request in place: memory, disk, completion and byte count are the specified ones |
| VirtioBlock.Device.ProcessQueue | devices/src/virtio_block.cpp:371-442 | process_queue in place serves the requests the specification serves |
| VirtioBlock.Device.UpdateQueueAddresses | devices/src/virtio_block.cpp:348-369 | update_queue_addresses in place gives the specified layout, or zero addresses |
| VirtioBlock.Device.WriteRegister | devices/src/virtio_block.cpp:170-239 | A register write in place, refusals, notifications, acknowledgements and the status reset included |
| VirtioBlock.Device.DoTick | devices/src/virtio_block.cpp:242-256 | tick in place |
| NetState.RunConserves | devices/src/virtio_net.cpp:387-495 | Over every run, frames offered are received, dropped, pending or flushed by a reset; at most 256 are pending, as the statistic says; both queues' positions are level after every operation, DMA failures included |
| NetState.CompleteThenTake | devices/src/virtio_net.cpp:568-603 | complete_chain puts a level queue one ahead or, on a failure, leaves both positions alone; taking the chain makes it level again |
| NetState.InitialConserves | devices/src/virtio_net.cpp:300-314 | The same counted from power-on |
| NetState.ApplyKeeps | devices/src/virtio_net.cpp:116-256 | Every operation keeps the invariant and accounts for the frames it takes and flushes |
| NetState.DeliveredFrame | devices/src/virtio_net.cpp:652-702 | A delivered frame is in the guest's buffers behind an empty header, and no other byte changed |
| NetState.Loopback | devices/src/virtio_net.cpp:605-702 | A frame delivered into buffers and sent back from them arrives unchanged |
| VirtioNet.Device.InjectReceivedFrame | devices/src/virtio_net.cpp:241-256 | A frame is queued or dropped, in place |
| VirtioNet.Device.CollectBackendFrames | devices/src/virtio_net.cpp:338-385 | The backend poll in place, with its saturating cycle count |
| VirtioNet.Device.ReceiveChain | devices/src/virtio_net.cpp:652-702 | The nested copy loops deliver header and frame across the buffers |
| VirtioNet.Device.TransmitChain | devices/src/virtio_net.cpp:605-650 | The nested gather loops collect the frame, or drop the chain |
| VirtioNet.Device.CompleteChain | devices/src/virtio_net.cpp:568-603 | The used ring is written and its index last; the queue's used index moves only when all three writes succeed; a failure is counted |
| VirtioNet.Device.ProcessReceiveQueue | devices/src/virtio_net.cpp:434-495 | process_receive_queue in place |
| VirtioNet.Device.ProcessTransmitQueue | devices/src/virtio_net.cpp:387-432 | process_transmit_queue in place, with the frames handed to the backend |
| VirtioNet.Device.DoTick | devices/src/virtio_net.cpp:201-221 | tick in place |
| MultiplyHigh.UnsignedIsExact | core64/src/core.cpp:51-71 | The 32-bit-limb computation equals floor(a*b / 2^64) for all 64-bit operands |
| MultiplyHigh.LimbsFit | core64/src/core.cpp:60-63 | No limb product wraps |
| MultiplyHigh.HalvesRecombine | core64/src/core.cpp:51-71 | High half and wrapping low half are the whole product |
| MultiplyHigh.SignedIsExact | core64/src/core.cpp:73-85 | The signed correction gives the high half of the true signed product modulo 2^64 |
| MultiplyHigh.SignedUnsignedIsExact | core64/src/core.cpp:87-96 | The same for signed times unsigned |
| DeviceTree.OnlyTheSizeChanges | platform64/src/device_tree.cpp:101-216 | For any blob: an error changes nothing; success changes eight bytes in bounds, which then read as the size, and nothing else |
| DeviceTree.PatchTwice | platform64/src/device_tree.cpp:101-216 | With header, structure and strings apart, patching with s1 and then s2 is patching with s2 |
| DeviceTree.WalkReads | platform64/src/device_tree.cpp:135-215 | The walk reads nothing at or beyond the place it finds |
| DeviceTree.WrittenReads | platform64/src/device_tree.cpp:29-58 | The eight bytes written are the big-endian size |
| DeviceTreeSpec.WalkFindsTarget | platform64/src/device_tree.cpp:135-215 | The walk finds a place exactly when it is the size in the reg of the first memory node directly below the root, with the expected 64-bit base and layout |
| DeviceTreeSpec.TargetIsUnique | platform64/src/device_tree.cpp:135-215 | There is at most one such property |
| DeviceTreePatch.Search | platform64/src/device_tree.cpp:130-215 | The cursor and depth loop is the specified walk, and it terminates in bounds |
| DeviceTreePatch.ReadCString | platform64/src/device_tree.cpp:71-92 | The string scan stops at the first zero byte or fails |
| DeviceTreePatch.WriteBe64 | platform64/src/device_tree.cpp:47-58 | The byte loop writes the size big-endian and nothing else |
| DeviceTreePatch.PatchMemory | platform64/src/device_tree.cpp:101-216 | The patch in place |
| AccessRules.TranslateExactly | core64/src/mmu.cpp:51-256 | A translation succeeds exactly when the table words lead, by their bits, to an aligned leaf that grants the access (W for a store, X for a fetch, R or MXR and X for a load, U for user mode, SUM and no fetch for supervisor mode on a user page); then the address is the leaf's page plus the offset and only A and D of that word are set; otherwise memory is unchanged, and the fault is an access fault exactly when the tables lead to what is not backed |
| AccessRules.HartTranslates | core32/src/mmu.cpp:52-316 | The same for a hart of either core: loads and stores go by MPP under MPRV, fetches by the privilege, SUM and MXR are those of mstatus |
| TlbProofs.InsertReplaces | core64/src/mmu.cpp:407-462 | An insertion changes one entry, the first of its set that may be reused or else the set's victim, and a victim is followed by the next way |
| FenceEffects.SfenceVma32 | core32/src/core.cpp:447-470 | After a retired SFENCE.VMA, with its operands read as registers rs1 and rs2 modulo 512, exactly the leaves outside that scope survive in the TLB, and no instruction in it is found, for all four operand forms |
| FenceEffects.SfenceVma64 | core64/src/core.cpp:1444-1464 | The same for RV64 with 16-bit ASIDs, when the privilege permits the fence; else nothing changes |
| FenceEffects.LeafCoveredIs | core64/src/mmu.cpp:536-555 | A leaf that answers for an address is in the scope exactly when that address and rs1 share its page as numbers, and it is not global and has the ASID of rs2 |
| FenceEffects.EndedTranslates | core32/src/mmu.cpp:464-528 | After such a fence a translation of any address in its scope gives the walk's result and memory, whatever the tables say by then |
| FenceEffects.FenceI32 | core32/src/core.cpp:447-470 | A retired FENCE.I leaves the TLB alone and no instruction, cached or decoded, to be found |
| FenceEffects.FenceI64 | core64/src/core.cpp:1330-1333 | The same for RV64 |
| FenceEffects.RecordEnded32 | core32/src/core.cpp:447-470 | The record of what may be cached loses exactly what the registers of the fence cover |
| FenceEffects.RecordEnded64 | core64/src/core.cpp:1444-1464 | The same for RV64 |
| FenceEffects.StepExplained32 | core32/src/frontend.cpp:299-415 | Every step keeps the instruction cache explained by a record of insertions, so the fence laws hold along every run |
| FenceEffects.StepExplained64 | core64/src/core.cpp:1664-1808 | The same for RV64 |
| FenceEffects.StepOnePage32 | core32/src/frontend.cpp:169-297 | Every kept instruction lies in the 4 KiB page of its key, so that the fence of that page is enough for it |
| FenceEffects.StepOnePage64 | core64/src/core.cpp:221-315 | The same for RV64 |
| ReservedRuns.ConditionalIsAtomic | core32/src/execute.cpp:567-759 | Over every RV32 run in either mode: an SC.W that retires has rd 0 and stored rs2 exactly when an LR.W of the same place stands before it with no LR or SC of the hart, no store, AMO, DMA or page-table update since, and RAM is then what that LR.W left; otherwise rd is 1 and RAM is unchanged |
| ReservedRuns.ReservationIsLatest | common/src/system_bus.cpp:140-206 | Over every RV32 run the reservation in force is that of the latest LR.W that no SC.W used up |
| ReservedRuns.QuietBetween | common/src/system_bus.cpp:115-138 | The write count of the bus stands still over a stretch of a run exactly while every event and step in it writes nothing |
| ReservedSteps.RunShows | core32/src/core.cpp:100-499 | The states that these laws speak of are those that the run shows |
| Reservations.WrittenIsRead | common/src/system_bus.cpp:115-402 | What a write, a successful store-conditional or an AMO stored is read back, and nothing else changed |
| InstructionEffects.ControlFlowEffect | core32/src/execute.cpp:247-373 | AUIPC, JAL, JALR and branches: the target from pc or rs1, the link to the next instruction, a trap on an odd target that links nothing, and no other change of the hart |
| SystemInstructions.IntegerEffect | core32/src/execute.cpp:78-245 | rd gets the instruction set's function of immediate, rs1 and rs2 in this order; ECALL and EBREAK trap with the cause of the privilege and with 3 |
| SystemInstructions.PrivilegedEffect | core32/src/trap.cpp:222-402 | WFI, SFENCE.VMA, MRET and SRET are illegal exactly below their privilege or under TW, TVM and TSR; else they go on, wait or return to epc in the stacked mode |
| SystemInstructions.CsrEffect | core32/src/execute.cpp:761-883 | A CSR instruction is illegal exactly when the write or read that it makes is refused; else rd holds the old value and the CSR gets the operand, or the old bits with the operand's set or cleared, bit by bit |
| MemoryInstructions.LoadEffect | core32/src/execute.cpp:375-565 | A load answers the extension of the bytes at the translated address of rs1 plus immediate; misaligned, page and access faults have causes 4, 13 and 5, with the address as value, in this order |
| MemoryInstructions.StoreEffect | core32/src/execute.cpp:375-565 | A store leaves the low bytes of rs2 there and no other byte changed; its causes are 6, 15 and 7 |
| MemoryInstructions.AtomicEffect | core32/src/execute.cpp:567-759 | LR.W and the AMOs answer the old word and an AMO leaves the combined one; LR faults as a load, SC and AMOs as stores |
| MemoryInstructions.FetchEffect | core32/src/frontend.cpp:169-297 | The fetch by halfwords, low first, with causes 0, 12, 1 and 2, the value being the address of the half that faulted or the illegal bits |
| InstructionEffects64.PlainEffect | core64/src/core.cpp:1466-1531 | What an RV64 step makes of a fault, a result, WFI and SFENCE.VMA, with their privilege rules |
| InstructionEffects64.ReturnEffect | core64/src/core.cpp:1400-1433 | An RV64 MRET or SRET is the return of TrapRules with one more instruction retired, or illegal |
| InstructionEffects64.FloatEffect | core64/src/csr.cpp:154-164 | A floating-point instruction is illegal while FS is Off; else it puts its results, adds its flags to fcsr bit by bit and makes FS Dirty exactly when it wrote a register or a flag |
| InstructionEffects64.CsrEffect | core64/src/csr.cpp:304-469 | The CSR instructions of RV64, refused or with the old value in rd and the new bits in the CSR |
| TrapRules.SelectsByPriority | core64/src/interrupt.cpp:16-120 | An interrupt is selected exactly when it is pending, enabled, not masked by its target's privilege and enable, and precedes every other such in the order machine before supervisor level, then external, software, timer |
| TrapRules.BeginsExactly | core32/src/interrupt.cpp:63-140 | A step idles exactly while the hart waits and no enabled interrupt is pending; else an arriving interrupt comes first, and only then an instruction |
| TrapRules.ExceptionHandled | core64/src/trap.cpp:17-100 | An exception goes to the base of the vector of the mode that delegation names; its handler reads epc, cause and tval by their CSR addresses, with the enables stacked and nothing else changed |
| TrapRules.InterruptHandled | core64/src/trap.cpp:102-155 | An interrupt goes to base + 4 * cause of a vectored handler, else to the base, with the top bit of the cause set and value 0 |
| TrapRules.VectorInstalled | core64/src/csr.cpp:148-152 | What a write of mtvec or stvec installs |
| TrapRules.ReturnsWhereWritten | core64/src/trap.cpp:171-222 | A handler that writes its epc CSR returns to that even address in the stacked mode with the stacked enable |
| CsrRules.AccessByAddress | core64/src/csr.cpp:10-130 | The privilege and read-only bits of a CSR's address decide who may access it, besides TVM for satp and FS for the floating ones |
| CsrRules.MachineAccess | core64/src/csr.cpp:58-118 | Machine mode reads exactly the CSRs that exist on the core, and writes those that are not read-only |
| CsrRules.CountersByEnables | core64/src/csr.cpp:19-56 | A counter is readable below machine mode exactly where mcounteren, and for user mode scounteren, allow |
| CsrRules.CountersRead | core32/src/csr.cpp:175-378 | RV32's counter halves are the 64-bit counts, RV64's are whole, and the machine counters are the same |
| CsrRules.Constants | core32/src/csr.cpp:175-378 | misa and the identity registers |
| CsrRules.HandlingReadsBack | core32/src/csr.cpp:401-523 | Scratch, cause and value CSRs read back what was written, epc without bit 0 |
| CsrRules.BitsReadBack | core32/src/csr.cpp:401-523 | Delegation, enable and counter-enable CSRs read back exactly the bits that can be set |
| CsrRules.SieReadsBack | core32/src/csr.cpp:401-523 | sie reads and writes the delegated supervisor bits of mie and leaves the others alone |
| CsrRules.PendingReadsBack | core32/src/csr.cpp:401-523 | mip and sip show lines and software bits; a write sets the supervisor-level software bits, through sip the delegated software interrupt alone |
| CsrRules.CountersReadBack | core32/src/csr.cpp:401-523 | RV32 writes a counter by halves, RV64 whole |
| CsrRules.FloatingReadsBack | core64/src/csr.cpp:325-449 | fflags and frm are the parts of fcsr; each write leaves the other part alone and makes FS Dirty |
| CsrRules.SatpReadsBack | core64/src/csr.cpp:325-449 | What a satp write reads back for every mode field of both cores |
| CsrRules.WriteElsewhere | core64/src/csr.cpp:171-449 | A CSR write shows in no CSR outside its register and group |
| SystemBus.ContainsIs | common/include/rv/platform/device.hpp:19-31 | A range contains an access exactly when it contains each of its bytes |
| SystemBus.OverlapsIs | common/include/rv/platform/device.hpp:33-41 | Ranges overlap exactly when they share an address |
| PlicService.CompletionEffect | devices/src/plic.cpp:290-305 | A write of i to the claim register of the context that has i in service ends the service, makes i pending exactly when its line is up, and changes nothing else; any other write changes nothing |
| PlicService.ClaimEffect | devices/src/plic.cpp:280-288 | A read of a claim register answers the waiting source of highest priority and lowest number, which is then not pending and in service, and changes nothing else |
| PlicService.LevelEffect | devices/src/plic.cpp:147-163 | A line that rises makes its source pending unless it is in service; no other change of a line does |
| PlicService.ServiceCompletes | devices/src/plic.cpp:280-305 | From claim to completion, whatever happens in between, a source stays in service and is not pending; its completion makes it eligible again exactly as its line, enable, priority and threshold then say |
| PlicService.PriorityEffect | devices/src/plic.cpp:87-108 | A priority register at 4 * i takes and reads back three bits, that of source 0 none |
| PlicService.ThresholdEffect | devices/src/plic.cpp:110-145 | A threshold register at 0x200000 + 0x1000 * context takes and reads back three bits |
| PlicService.EnableEffect | devices/src/plic.cpp:110-145 | An enable word at 0x2000 + 0x80 * context takes its bits one by one, except that of source 0 |
| PlicService.PendingRead | devices/src/plic.cpp:22-85 | The pending words at 0x1000 read as the bits of their sources |
| PlicService.EnableRead | devices/src/plic.cpp:22-85 | The enable words read as the bits of their sources |
| PlicService.OtherAccesses | devices/src/plic.cpp:22-145 | Reading changes nothing but at a claim register, and accesses that are not aligned words are refused |
| UsedRing.PublishEffect | devices/src/virtio_block.cpp:409-435 | Returning a chain writes its head into the id and its byte count into the length of the used element at the used index, then the next used index, and no other byte |
| UsedRing.TurnsFill | devices/src/virtio_net.cpp:548-603 | Over a whole loop: each used element holds the head at the same position of the available ring and its byte count, the used index has moved by as many, and other elements are as they were |
| ReturnedChains.ServeReturns | devices/src/virtio_block.cpp:371-442 | process_queue with rings in RAM: every published chain, up to the queue size, is served and returned in the order of the available ring with the byte count of its request |
| ReturnedChains.ReceiveReturns | devices/src/virtio_net.cpp:434-495 | process_receive_queue: frame j goes to the j-th published chain, whose head is returned in the j-th used element with the length of header and frame, or 0 if the chain could not take it |
| ReturnedChains.TransmitReturns | devices/src/virtio_net.cpp:387-432 | process_transmit_queue: every published chain is returned with length 0 and the frames handed over are those of the chains, in order |
| ReturnedChains.ConfiguredInRam | devices/src/virtio_block.cpp:684-693 | Every configured block queue whose rings RAM holds is such a queue |
| RequestRules.DescriptorBytes | devices/src/virtio_block.cpp:632-665 | A descriptor is the 16 little-endian bytes of address, length, flags and next at its index |
| RequestRules.HeaderBytes | devices/src/virtio_block.cpp:491-503 | A request header is read from 16 bytes: the type in the first four, the sector in the last eight |
| RequestRules.StatusIs | devices/src/virtio_block.cpp:444-630 | A request completes exactly when its chain is accepted, well formed and its status byte writable; the status is 2 for other types, 0 exactly when all buffers have the right direction, lie in memory and fit the disk, and else 1 |
| RequestRules.DriverSetsUp | devices/src/virtio_block.cpp:170-249 | The register writes of a driver place descriptors, available and used ring where the legacy layout says; notification and acknowledgement |
| RequestRules.ResetEffect | devices/src/virtio_block.cpp:225-240 | A status reset keeps page size and disk alone; refused writes change nothing |
| RequestRules.TickServes | devices/src/virtio_block.cpp:251-263 | A notified tick serves the published chains, raises the interrupt exactly when there was one, and takes the notification; without one nothing happens |
| NetRules.ReceivesExactly | devices/src/virtio_net.cpp:652-702 | A chain takes a frame exactly when all its buffers are writable and ten bytes more than the frame lie in them and in memory |
| NetRules.TransmitsExactly | devices/src/virtio_net.cpp:605-650 | A chain gives a frame exactly when no buffer is writable and 11 to 65560 bytes lie in memory: those behind the ten of the header |
| NetRules.PullsInOrder | devices/src/virtio_net.cpp:338-385 | Polling takes frames in order until 256 are pending, queues those of legal size and counts the rest as dropped |
| NetRules.PollsWhenDue | devices/src/virtio_net.cpp:338-360 | The backend is polled exactly when asked for or when its interval has passed |
| NetRules.RunKeepsOrder | devices/src/virtio_net.cpp:201-256 | Over every run frames leave the pending queue in the order in which they were accepted |
| Endian.ByteIs | common/include/rv/platform/endian.hpp:33-54 | Byte i of a stored word is its quotient by 256^i, modulo 256 |
| DeviceTreeRules.PatchesTarget | platform64/src/device_tree.cpp:101-216 | The patch succeeds exactly when the blocks that the header gives hold a target with the expected base; then the eight bytes of its size, and nothing else, are the new size |
| DeviceTreeRules.HeaderGives | platform64/src/device_tree.cpp:112-132 | The header is ten big-endian words, of which magic, sizes and offsets decide whether there are blocks and where |
| DeviceTreeRules.WordIsBigEndian | platform64/src/device_tree.cpp:29-45 | Words are big-endian |
| DeviceTreeRules.SizeIsBigEndian | platform64/src/device_tree.cpp:47-58 | The size is written most significant byte first |
| DeviceTreeRules.NamesAre | platform64/src/device_tree.cpp:94-97 | The names looked for, by their letters |
| DeviceTreeRules.AlignIs | platform64/src/device_tree.cpp:60-69 | Tokens begin at the next multiple of four |
| ReturnedChains.ReceiveCounts | devices/src/virtio_net.cpp:434-495 | A receive loop adds to the statistics the frames it delivered and their bytes, those it dropped, the chains and interrupts of its turns, and a starvation when frames were left and chains were not |
| ReturnedChains.TransmitCounts | devices/src/virtio_net.cpp:387-432 | A transmit loop adds the frames handed over and their bytes, the chains without one, chains and interrupts |
| InstructionEffects.StepReports | core32/src/core.cpp:100-499 | The step result: pc, bits, cycle, status, the value and the bus fault that goes with the cause of a trap, bits and length of a commit |
| InstructionEffects64.FetchEffect | core64/src/core.cpp:221-315 | RV64's fetch by halfwords, low first, with the causes and values of its faults |
| InstructionEffects64.AskEffect | core64/src/core.cpp:605-650 | A data access asks for what it does at the translated address, or for its page or access fault |
| InstructionEffects64.StepEffect | core64/src/core.cpp:133-203 | An RV64 step traps what was not fetched or is invalid, and else completes what its instruction asked for |
| PlicService.LineIsWaiting | devices/src/plic.cpp:165-261 | In every reachable state the cached source of a context is the pending, enabled one above the threshold of highest priority and, among those, lowest number, and 0 exactly when there is none |
| Reservations.RefusedAccesses | common/src/system_bus.cpp:140-402 | Atomic operations refuse misaligned addresses first, then unmapped ones, where a store-conditional still uses up its reservation |

## Left out

- The decoder and the value functions (ALU, branch conditions, AMO arithmetic, sign extension) are parameters of `Core32`: its theorems hold for every choice of them whose register numbers are below 32 and lengths 2 or 4. Their tables are not modelled.
- `Core64` takes what an instruction computes as an arbitrary request, and `Fast64` what it decodes to, its one data access and what it does on the bus as arbitrary functions; the RV64 instruction tables are not modelled.
- Floating-point arithmetic: only the FS, SD and fcsr rules are modelled.
- MMIO in the cores: page tables lie in RAM. For `Core32` data and code do too, one word map of naturally aligned 4-byte words, and RAM is always instruction-cacheable; `Fast64` leaves both to its bus functions, where only cacheable places must read without effect.
- The VirtIO devices reach one contiguous RAM; DMA into other devices, some of which refuse narrow writes, is not modelled.
- A page-table write that faults after its read succeeded cannot happen in RAM and is not modelled.
- Page, ASID and write epochs are unbounded naturals; only the cache generation, whose wrap the code handles, wraps here.
- The RV32 core in place: the TLB, the reads and the writes of one unit are value updates of the core's fields; `Mmu` and `Endian` have the in-place forms of the walk, the TLB and RAM.
- The RV64 core is on values: its caches are those of `Mmu` and `Machine32` in another mode, and in-place forms are not repeated for it.
- Runs of the RV32 core have one hart; the other bus users appear as arbitrary DMA writes between steps.
- Adding a null device, which the types exclude; `std::sort` is an insertion, which `SystemBus.SortIsUnique` shows to be the same.
- In the LR/SC histories, writes routed to other devices appear as events that move the epoch; the arithmetic of AMOs is an arbitrary replacement value.
- For the network device, register writes that place a queue are one operation with arbitrary addresses and sizes; feature negotiation and the read-only registers are omitted, as are the statistics that no law names.
- VirtIO block: the read-only registers, feature negotiation and statistics are omitted, as is the bus fault that a refused register write answers.
- `FileBlockStorage`, the libslirp backend, UART, CLINT, Syscon, the real-time clock, the framebuffer, the command line and the windows: input, output and small register banks. Interrupt lines, time and backend frames are inputs.
- Performance counters, except the network statistics that the laws above name.
