# Schism: a verified model

Schism is a small AArch64 hypervisor. This project models three of its state machines in Dafny and
proves what they keep over whole runs.

**Page tables** (`words.dfy`, `descriptors.dfy`, `table_tree.dfy`, `ranges.dfy`, `stage2.dfy`,
`el2_mmu.dfy`). The bounded pools are arrays at symbolic, disjoint, 4KB-aligned addresses with
arbitrary contents. `TableTree.Walk` is the hardware: it reads 8-byte words of a flat physical memory
and follows descriptors only (level 1 start, 4KB granule, 39 input bits, as in section D8.3 of
DDI 0487). The software keeps child pointers beside them. The main results are that the walk of every
address equals an abstract page map, whatever stale data the pools hold; that one mapping call changes
exactly one page; that a panic happens exactly when the mapped 1GB or 2MB regions outnumber the pools;
and closed forms for the stage-2 build and the EL2 image. Both builders share one tree; their two
descriptor formats and mapping loops are modelled separately. The C operators `&`, `|`, `^` are real
bitwise functions on integers, and every encode/decode fact is proved from them.

**Virtual time** (`machine.dfy`, `virtual_time.dfy`, `timer_laws.dfy`, `switch_asm.dfy`). The machine
keeps a physical CNTP_CVAL in hardware, a virtual one in the trapframe, and an offset that is rewritten
at every entry and by HVC 0x61. It is proved to implement an offset-free specification (`VState`) for
every run, with the same values returned to the guests. A guest is an arbitrary step: it changes its
registers, its EL1 state and CNTV and lets the counter run, but cannot touch CNTP or CNTVOFF
(`core/s2_mmu.c:246-247`). The assembly is modelled instruction by instruction, down to the base
register each load and store needs, and proved equal to `Restore` and `Capture`, which the world switch
of `Hypervisor` uses.

**Scheduling** (`scheduler.dfy`, `runs.dfy`, `hypervisor.dfy`). `Hypervisor` updates the run queue, the
latch and the vCPU pool in place; each method is proved against a value function, and the run theorems
are about those. `Round` is one iteration of the loop in `vcpu_run` together with what its one or two
guest entries do, so a sequence of rounds is an arbitrary finite prefix of a run.

`checksum.dfy` covers the memory-walk guest.

## Assumptions and findings

- The code computes virtual = physical + CNTVOFF; the Arm manual's CNTVOFF_EL2 has a minus. The code's
  convention is the single definition `Machine.VirtualCount`, and all theorems about time rest on it.
- The comment at `core/trap.c:14-15` promises the saved count plus the time since scheduling in. That
  is false across a trap without a yield: `vcpu_run` re-enters without a snapshot, so the clock goes
  back. `TimerLaws.ReentryContinuesIff` proves, for every trap and every kind of previous entry, exactly
  when it does not and by how much it goes back; `TimerLaws.ClockGoesBack` gives numbers. Across a yield
  the count is kept exactly.
- Comments at `core/trap.c:197` and `core/trap.c:269` call a TVAL read a signed 32-bit delta; the code
  returns all 64 bits, and so does the model. `TimerLaws.TvalReadFits32Iff` proves exactly when the value
  is a sign-extended 32-bit one, and `TimerLaws.TvalReadTooWide` gives one that is not.
- README.md of the repository speaks of preemption and of per-VM slots. The scheduler only switches when
  a guest executes WFI or WFE, and the booted system has one slot that both guests share.
- Addresses of 2^39 and above are not rejected by the builders: they wrap onto a lower page
  (`TableTrees.PageOf`). The range and build methods are proved for these inputs too.

## Model

| member | source | states |
|---|---|---|
| `Words.WrapAround` | core/trap.c:208-210 | addition and subtraction of counts are those of integers modulo 2^64 |
| `Words.AndAddressMask` | core/s2_mmu.c:143 | masking with the PA mask and page mask keeps exactly bits 47:12 |
| `Words.AndPageMask` | core/s2_mmu.c:53-61 | masking with the complement of 0xfff rounds down to a page, for every `u64` |
| `Words.DomainLaws` | core/trap.c:151-161 | moving a count between the virtual and physical domain is invertible, also across a wrap |
| `Words.SignExtendIff` | core/trap.c:206-208 | `(int32_t)raw` is the one word within 2^31 of zero that has the same low half |
| `Descriptors.LeafFields` | core/s2_mmu.c:143-152 | the `or` chain of a leaf never overlaps: it is the sum of its fields, for both formats |
| `Descriptors.MemoryAttributes` | core/el2_mmu.c:124-135 | every leaf carries its MAIR index in bits 4:2 and is inner shareable |
| `Descriptors.TableFields` | core/s2_mmu.c:117-130 | both builders write the same table descriptor, and it decodes to the address of that very pool slot |
| `Descriptors.LeafDecodes` | core/el2_mmu.c:124-135 | encode then decode: the hardware reads back the requested output page and permissions, access flag set, for both formats |
| `TableTrees.SplitAddress` | core/s2_mmu.c:136-138 | the three level indices are the digits of one page number below 2^27 |
| `TableTrees.TableTree.constructor` | core/s2_mmu.c:24-29 | statics at given addresses with arbitrary contents satisfy the placement assumption |
| `TableTrees.TableTree.WalkFinds` | core/s2_mmu.c:109-155 | refinement: in every reachable state the descriptor-only walk through memory of every address gives exactly the descriptor of the abstract page map, or nothing |
| `TableTrees.TableTree.UsedCounts` | core/s2_mmu.c:90-107 | the used counters equal the numbers of distinct 1GB and 2MB regions mapped since the last reset |
| `TableTrees.TableTree.SlotsAreDistinct` | core/s2_mmu.c:109-132 | no two used pool slots serve the same region: each has one parent |
| `TableTrees.TableTree.SlotOfPage` | core/s2_mmu.c:140-154 | no two leaf slots of the pools serve the same page |
| `TableTrees.TableTree.L2AllocatedIffMapped` | core/s2_mmu.c:109-120 | a 1GB region has a level-2 table exactly when one of its pages is mapped |
| `TableTrees.TableTree.L3AllocatedIffMapped` | core/s2_mmu.c:122-132 | a 2MB region has a level-3 table exactly when one of its pages is mapped |
| `TableTrees.TableTree.Accounting` | core/s2_mmu.c:90-107 | how one more page changes both region counts |
| `TableTrees.TableTree.Reset` | core/s2_mmu.c:81-88 | from any contents of the statics, the tree is valid and maps nothing, although the pools are not cleared |
| `TableTrees.TableTree.AllocL2` | core/s2_mmu.c:90-98 | hands out the next slot with entries and children cleared, leaves the others; fails exactly at the bound |
| `TableTrees.TableTree.AllocL3` | core/s2_mmu.c:100-107 | the same for level-3 tables |
| `TableTrees.TableTree.LinkL2` | core/s2_mmu.c:115-119 | a fresh table hung under an empty level-1 slot keeps the tree invariant |
| `TableTrees.TableTree.EnsureL2` | core/s2_mmu.c:109-120 | keeps the tree invariant, reuses a present child, links a new one under its only parent; fails exactly when the pool is used up |
| `TableTrees.TableTree.AllocL3For` | core/s2_mmu.c:100-107 | a cleared level-3 table agrees with the page map on the region of an empty level-2 slot |
| `TableTrees.TableTree.EnsureL3` | core/s2_mmu.c:122-132 | the same one level down |
| `TableTrees.TableTree.SetLeaf` | core/s2_mmu.c:134-155 | the abstract map changes at one page only; the call panics exactly when the mapped regions no longer fit the pools |
| `Ranges.AlignUpRounds` | core/s2_mmu.c:58-61 | the least page boundary not below the value, or 0 when there is none below 2^64 |
| `Ranges.PageMeaning` | core/s2_mmu.c:134-155 | after one mapping, the translation of every address: requested inside the page, as before elsewhere |
| `Ranges.FillLookup` | core/s2_mmu.c:167-171 | a run of page mappings maps exactly its own pages, each at its own distance |
| `Ranges.FillLast` | core/el2_mmu.c:149-155 | any run of pages, also one past 2^39 that comes back over its own pages: each page holds what the last step that writes it stored |
| `Ranges.PagesTouched` | core/s2_mmu.c:163-167 | the loop visits exactly the pages that meet the byte range |
| `Ranges.RangeLookup` | core/el2_mmu.c:138-156 | a range call maps exactly the pages meeting its bytes and keeps all others |
| `Ranges.StaysFull` | core/s2_mmu.c:90-107 | once the pools are overrun no later page of the range fits again |
| `Stage2Mmu.MapPage` | core/s2_mmu.c:134-155 | afterwards the walk of the selected page gives the requested output and R/W/X, every other walk is what it was; the exact panic condition |
| `Stage2Mmu.MapIdentityRange` | core/s2_mmu.c:157-172 | terminates for every `u64` input; final map and exact panic condition |
| `Stage2Mmu.BuildTablesIdentity` | core/s2_mmu.c:174-194 | from any contents of the statics, the final map does not depend on what they held; empty arguments touch nothing; exact panic condition, for every input |
| `Stage2Mmu.SlotStart` | core/s2_mmu.c:185-189 | slot k starts at base + k * stride modulo 2^64 |
| `Stage2Mmu.SlotsLookup` | core/s2_mmu.c:185-191 | a page is mapped exactly when it lies in one of the slots, at distance pa - ipa |
| `Stage2Mmu.BuildTranslates` | core/s2_mmu.c:174-194 | the build theorem: an address translates iff it lies in some slot, to pa + (x - ipa) with the requested permissions; all else faults |
| `Stage2Mmu.GuardBytesAreInNoSlot` | core/s2_mmu.c:180-189 | the guard bytes after any slot belong to no slot |
| `Stage2Mmu.SlotsAreSeparate` | core/s2_mmu.c:185-191 | addresses of different slots translate to different physical pages |
| `Stage2Mmu.BuildFits` | core/s2_mmu.c:90-107 | a bound on base, sizes and count under which the build never panics |
| `Stage2Mmu.BuildBootTables` | core/main.c:96-98 | the booted build succeeds, and maps exactly 0x40000000 to 0x7fffffff to itself, RWX |
| `El2Mmu.MapPage` | core/el2_mmu.c:115-136 | as for stage 2, under the EL2 stage-1 format |
| `El2Mmu.MapRangeCall` | core/el2_mmu.c:138-156 | terminates for every input; final map and exact hang condition |
| `El2Mmu.LastWriter` | core/el2_mmu.c:138-156 | the last call of a list that covers a page |
| `El2Mmu.LastWriterWins` | core/el2_mmu.c:138-156 | for any list of overlapping calls over any map each page holds what its last writer stored, and uncovered pages what they held |
| `El2Mmu.MapCalls` | core/el2_mmu.c:138-156 | making the calls builds that table: on a fresh one the walk of every address finds what its last writer stored; exact hang condition |
| `El2Mmu.CallTranslates` | core/el2_mmu.c:145-154 | for any pa and va, a byte lands at pa + (x - va) less (pa - va) modulo 4KB, so at its own distance exactly when the two are congruent |
| `El2Mmu.CongruentCall` | core/el2_mmu.c:145-154 | with pa and va congruent modulo 4KB, every byte of the touched pages maps to pa + (x - va) |
| `El2Mmu.PageUpRounds` | linker.ld:21 | ALIGN(0x1000) is the least page boundary not below the address |
| `El2Mmu.Image.Order` | linker.ld:13-49 | each section starts one guard page after the page-aligned end of the one before |
| `El2Mmu.CallsCover` | core/main.c:69-91 | which of the six calls covers which address of the linked image |
| `El2Mmu.OneWriter` | linker.ld:13-49 | the placed sections never share a page |
| `El2Mmu.ImageMeaning` | core/main.c:69-91 | the translation of every EL2 address after the six calls, for all section sizes |
| `El2Mmu.WriteXorExecute` | core/main.c:70-91 | no page of the tables the six calls build is both writable and executable |
| `El2Mmu.SectionsAndGuards` | linker.ld:21-48 | in those tables every byte of each section and of the UART maps to itself with its permissions; the guard pages fault |
| `El2Mmu.ImageNumbers` | linker.ld:14-49 | in numbers: code executable from 0x40000000, 32KB of writable stack with a guard page, the UART at 0x09000000 writable and the only device memory, nothing else below 0x40000000 |
| `El2Mmu.ImageFits` | core/el2_mmu.c:33-34 | with pools of 16 and 64, an image of up to 63 level-3 tables never hangs the builder |
| `El2Mmu.MapImage` | core/main.c:69-91 | init and the six calls give that view of every address; exact hang condition |
| `Scheduler.FindSlot` | core/vcpu.c:27-33 | the first slot holding the vCPU, or -1 exactly when there is none |
| `Scheduler.AdmissionIff` | core/vcpu.c:35-65 | a vCPU is taken exactly when known or fewer than eight are queued; registration displaces nobody; set_current makes it current exactly then |
| `Scheduler.ApplyKeepsInv` | core/vcpu.c:35-88 | every operation keeps the queue distinct and bounded, current at the index, and nobody dropped |
| `Scheduler.RunKeepsInv` | core/vcpu.c:21-88 | the same over any sequence of operations |
| `Scheduler.YieldRefusedIff` | core/vcpu.c:74-80 | a yield is refused exactly with fewer than two vCPUs; the test at line 79 never fires |
| `Scheduler.WaitShrinks` | core/vcpu.c:35-88 | a yield shortens every wait, a registration leaves it, and no wait exceeds 7 |
| `Scheduler.BoundedWaiting` | core/vcpu.c:72-88 | in any run of yields and registrations every registered vCPU becomes current within 7 yields |
| `Scheduler.RoundRobin` | core/vcpu.c:77-84 | n yields move the index n places round |
| `Scheduler.EachOnce` | core/vcpu.c:72-88 | queue-length many yields make each vCPU current exactly once |
| `Runs.SwitchFrame` | core/vcpu.c:349-394 | attribution: the latch names the entered, current vCPU; the trap clears it and no other record changes but the saved count of `from` |
| `Runs.HaltsExactlyOn` | core/trap.c:363-367 | a world switch halts exactly on an unknown trap or an access to a register that is not emulated |
| `Runs.NobodyCurrent` | core/trap.c:354-367 | with no current vCPU everything but a WFI halts, and no record changes |
| `Runs.CounterRunsOn` | core/vcpu.c:372-376 | no switch and no handler sets the physical counter: it advances by the ticks of the stay |
| `Runs.EntersOwnState` | core/vcpu.c:365-389 | a guest is entered with its own frame and tables, at its saved count, with the remaining ticks of both timers as saved |
| `Runs.AccessFrame` | core/trap.c:134-289 | what an emulated access may change in the trapped frame |
| `Runs.HandlerFrame` | core/trap.c:347-367 | what any handler may change in the trapped frame |
| `Runs.HandlerRecord` | core/trap.c:354-359 | only a WFI raises the yield request, and no handler changes the tables |
| `Runs.ResumePoint` | core/trap.c:70-77 | resume at pc+4 after WFI and handled accesses, at the reported ELR after a hypercall; only a read's target register changes; ELR_EL2 and the frame agree |
| `Runs.IterateRecords` | core/vcpu.c:96-108 | after an iteration each entered vCPU's record holds the state its guest trapped in, at the resume point, and no other record has changed |
| `Runs.ReentryResumes` | core/vcpu.c:100-107 | at the next entry the current vCPU finds the registers and EL1 state its guest trapped in, at the resume point |
| `Runs.IterateKeepsLoopHead` | core/vcpu.c:96-108 | at every loop head only the current vCPU can have a yield request pending, and the latch is clear |
| `Runs.YieldStep` | core/vcpu.c:72-88 | a yield runs the next vCPU and leaves the rest alone |
| `Runs.RequestConsumed` | core/vcpu.c:100-107 | a request pending at the head or raised by the first entry is consumed in that iteration, and with two vCPUs current changes |
| `Runs.NoRequestNoSwitch` | core/vcpu.c:100-107 | without one the same vCPU goes round again |
| `Runs.LateWfiHonoured` | core/vcpu.c:101-107 | a WFI trapped inside the switch of any yielding iteration, also one that yields on a pending request, is pending at the next head and honoured there |
| `Runs.IterateSchedules` | core/vcpu.c:100-107 | the scheduler moves on by one exactly in the iterations that yield |
| `Runs.BoundedWaitingInRun` | core/vcpu.c:90-109 | in any run of vcpu_run every queued vCPU is current at a loop head before more than 7 iterations have yielded |
| `Runs.RunKeepsLoopHead` | core/vcpu.c:90-109 | the loop invariant over every run; the break on a null current is never taken |
| `Runs.IterateHaltsOn` | core/trap.c:363-431 | an iteration halts exactly when one of its one or two traps was unknown or not emulated |
| `Runs.RunHaltsExactlyOn` | core/trap.c:363-431 | any run of vcpu_run is halted exactly when one of the traps it took was unknown or not emulated |
| `Runs.DeschedulingFreezes` | core/vcpu.c:82-86 | while a vCPU is out its whole record is unchanged, over any rounds |
| `Runs.YieldingIteration` | core/vcpu.c:104-107 | exactly which iterations change the current vCPU |
| `Runs.TwoTakeTurns` | core/main.c:110-115 | two vCPUs that execute WFI alternate, so the frozen-time theorem applies to the booted pair |
| `Runs.FrozenAcrossDeschedule` | core/vcpu.c:355-389 | from a vCPU's switch-out to its next switch-in, whatever runs between: entered with the registers and EL1 state its guest trapped in, at the resume point, with the same virtual count and the same remaining ticks of CNTP and CNTV |
| `VirtualTime.AgreesAtEntry` | arch/arm64/switch_el2.S:37-46 | at guest entry CNTP_CVAL + CNTVOFF equals the frame's virtual compare value and CNTVOFF the vCPU's offset |
| `VirtualTime.TrappedState` | arch/arm64/vectors_el2.S:81-88 | at the trap the frame holds the offset-free timers and the hardware agrees with it |
| `VirtualTime.ReadRefines` | core/trap.c:136-276 | every emulated read returns what the offset-free timer holds |
| `VirtualTime.WriteRefines` | core/trap.c:156-285 | every emulated write does to hardware and frame what it does to the offset-free timer |
| `VirtualTime.OverrideRefines` | core/trap.c:299-321 | HVC 0x61 rebases the count and nothing else |
| `VirtualTime.HandlerRefines` | core/trap.c:347-367 | all handlers simulate the offset-free timers and re-establish the hardware invariant |
| `VirtualTime.HopRefines` | core/vcpu.c:349-394 | one switch, stay and trap simulates one abstract step with the same output |
| `VirtualTime.RunRefines` | core/trap.c:122-321 | timer refinement over every sequence of switches, ticks, guest steps, accesses and overrides: same state, same returned values, hardware agreeing at the end |
| `TimerLaws.IterateRefines` | core/vcpu.c:96-108 | one loop iteration is one or two such steps; the hardware invariant holds for the vCPU that is current afterwards |
| `TimerLaws.VcpuRunRefines` | core/vcpu.c:90-109 | every run of vcpu_run implements the offset-free timers, with the same values returned in the same order |
| `TimerLaws.LockstepRun` | core/trap.c:144-289 | the two offset-free timers give the same outputs to the same accesses |
| `TimerLaws.Lockstep` | core/trap.c:144-289 | emulated CNTP is in lockstep with CNTV for ever, across overrides, captures, restores and switches |
| `TimerLaws.CompareStable` | core/trap.c:156-213 | of the offset-free timers: nothing but its own CVAL and TVAL writes moves a physical timer |
| `TimerLaws.CompareKept` | core/trap.c:156-213 | of the machine, over any run of hops: the saved compare value of a vCPU stays unless that vCPU writes it |
| `TimerLaws.CompareKeptByRun` | core/vcpu.c:90-109 | the same over any run of vcpu_run |
| `TimerLaws.TvalCountsDown` | core/trap.c:193-216 | of the offset-free timers: TVAL written at t0 as the signed 32-bit number delta reads CVAL t0 + delta and later TVAL delta - (t1 - t0) |
| `TimerLaws.TvalOnMachine` | core/trap.c:193-216 | of the machine: the same for the values the handlers put in guest registers, after any hops in between, for the one delta that is the signed low half of the register, in wrap-around arithmetic |
| `TimerLaws.TvalWriteLaw` | core/trap.c:206-211 | a TVAL write, of either timer, sets frame and hardware to the count plus the signed 32-bit number written, and leaves the other timer |
| `TimerLaws.TvalReadFits32Iff` | core/trap.c:193-201 | a TVAL read, of either timer, returns a sign-extended 32-bit value exactly when the delta is within 2^31 of zero |
| `TimerLaws.TvalReadTooWide` | core/trap.c:197 | a timer 2^32 ticks away reads 2^32, whose low half stands for 0 |
| `TimerLaws.StayRefines` | core/vcpu.c:349-394 | one switch by any kind of entry does to the entered vCPU what the offset-free access does |
| `TimerLaws.OverrideLaw` | core/trap.c:299-321 | an override to d, in a stay begun by any kind of entry, leaves CVAL, leaves CVAL - d ticks, returns d, and the next entry without a yield starts at d |
| `TimerLaws.ReentryContinuesIff` | core/trap.c:14-15 | after any trap and any kind of previous entry, time runs on across a re-entry without a yield exactly when no tick has passed since the count was last set; otherwise it goes back by exactly the ticks that have |
| `TimerLaws.ClockGoesBack` | core/vcpu.c:101 | clocks that go back, from 105 to 100 after a WFI and from 207 to 200 after an override |
| `SwitchAsm.CaptureUndoesRestore` | arch/arm64/switch_el2.S:37-46 | as functions, capture after restore is the identity up to the two control words, for every frame and offset |
| `SwitchAsm.RestoreUndoesCapture` | arch/arm64/vectors_el2.S:46-88 | restore after capture gives back every register |
| `SwitchAsm.CompareSurvivesNewOffset` | arch/arm64/switch_el2.S:37-46 | under a new offset the virtual compare value is kept |
| `SwitchAsm.Cpu.SaveHost` | arch/arm64/switch_el2.S:8-17 | host x19 to x30 and SP are in host_saved_area |
| `SwitchAsm.Cpu.LoadReturnState` | arch/arm64/switch_el2.S:20-26 | SP_EL1, ELR_EL2 and SPSR_EL2 are the frame's |
| `SwitchAsm.Cpu.LoadContext` | arch/arm64/switch_el2.S:28-36 | the translation and control registers are the frame's |
| `SwitchAsm.Cpu.LoadEl1` | arch/arm64/switch_el2.S:20-36 | the EL1 context is the frame's, the base register survives |
| `SwitchAsm.Cpu.LoadTimers` | arch/arm64/switch_el2.S:37-47 | words 40 to 43 are CNTP control, CNTP compare (moved to the physical domain), CNTV control and CNTV compare |
| `SwitchAsm.Cpu.LoadGprs` | arch/arm64/switch_el2.S:50-66 | all 31 registers are the frame's although x0 is the base of every load |
| `SwitchAsm.Cpu.VcpuSwitchAsm` | arch/arm64/switch_el2.S:3-67 | the instruction sequence computes Restore and saves the host context |
| `SwitchAsm.Cpu.StoreGprs` | arch/arm64/vectors_el2.S:46-63 | the frame receives every guest register, x16 from the stack |
| `SwitchAsm.Cpu.StoreReturnState` | arch/arm64/vectors_el2.S:65-70 | words 31 to 33 receive SP, ELR and SPSR, everything below is kept |
| `SwitchAsm.Cpu.StoreContext` | arch/arm64/vectors_el2.S:72-79 | words 34 to 39 receive the translation and control registers, everything below is kept |
| `SwitchAsm.Cpu.StoreEl1` | arch/arm64/vectors_el2.S:65-80 | words 31 to 39 of the frame receive the EL1 context, register by register |
| `SwitchAsm.Cpu.StoreTimers` | arch/arm64/vectors_el2.S:81-88 | words 40 to 43 receive the timers, the CNTP compare value as a virtual count |
| `SwitchAsm.Cpu.VectorSave` | arch/arm64/vectors_el2.S:36-92 | x16 and the code are on the stack, the latched frame holds the guest, the latch is clear |
| `SwitchAsm.Cpu.VectorArguments` | arch/arm64/vectors_el2.S:94-103 | both words come off the stack and the handler's arguments are in x0 to x4 |
| `SwitchAsm.Cpu.VectorEntry` | arch/arm64/vectors_el2.S:12-105 | the slot and the common path compute Capture, clear the latch, balance the stack and set up the handler's arguments |
| `SwitchAsm.Cpu.VectorReturn` | arch/arm64/vectors_el2.S:107-120 | the host context comes back whatever the handler did |
| `SwitchAsm.Cpu.SwitchAndTrap` | arch/arm64/vectors_el2.S:13-120 | the whole trip: the frame holds the trapped guest, and to C the switch keeps x19 to x30, SP and the stack |
| `SwitchAsm.Cpu.RestoreThenCapture` | arch/arm64/switch_el2.S:3-67 | the two instruction sequences back to back give the frame in memory back word for word, the control words cut to two bits, with the stack balanced |
| `Hypervisors.Hypervisor.constructor` | core/vcpu.c:21-25 | the empty scheduler |
| `Hypervisors.Hypervisor.SchedFindSlot` | core/vcpu.c:27-33 | the loop finds the first slot or -1 |
| `Hypervisors.Hypervisor.Append` | core/vcpu.c:41 | the queue grows by one at its end |
| `Hypervisors.Hypervisor.Register` | core/vcpu.c:35-47 | the in-place update is Scheduler.Register, nothing else changes |
| `Hypervisors.Hypervisor.SetCurrent` | core/vcpu.c:49-65 | the in-place update is Scheduler.SetCurrent, nothing else changes |
| `Hypervisors.Hypervisor.Yield` | core/vcpu.c:72-88 | the in-place update is Machine.Yield; the result says whether it switched |
| `Hypervisors.Hypervisor.VcpuRun` | core/vcpu.c:90-109 | the loop computes Rounds, so all run theorems apply to it: among them IterateRecords, ReentryResumes and RunHaltsExactlyOn |
| `Hypervisors.Hypervisor.SwitchIn` | core/vcpu.c:355-389 | save, tables, offset, latch and restore compute EnterGuest |
| `Hypervisors.Hypervisor.Capture` | arch/arm64/vectors_el2.S:35-92 | the guest runs, the latched frame is filled and the latch cleared: LeaveGuest |
| `Hypervisors.Hypervisor.WorldSwitch` | core/vcpu.c:349-394 | save, offset, latch, restore, guest, capture and handling, in that order, compute Machine.WorldSwitch |
| `Hypervisors.Hypervisor.ExceptionCommon` | core/trap.c:347-367 | dispatch and WFI path; it halts exactly on an unknown trap, an access that is not emulated, or anything but a WFI with no current vCPU |
| `Hypervisors.Hypervisor.AdvanceGuestElr` | core/trap.c:71-77 | ELR_EL2 and the cached ELR are both moved to elr + 4, nothing else changes |
| `Hypervisors.Hypervisor.HandleTimerSysreg` | core/trap.c:122-296 | each case computes the value function; unhandled accesses change nothing; only the current vCPU changes |
| `Hypervisors.Hypervisor.HandleGuestTimeOverride` | core/trap.c:299-321 | the register sequence computes the value function; only the current vCPU changes |
| `Hypervisors.Hypervisor.InitSlot` | core/main.c:37-62 | the record is the one FirstEntry speaks of, and no other slot changes |
| `Hypervisors.FirstEntry` | core/main.c:37-62 | whenever a fresh vCPU is first entered: its entry point, stack, id, SPSR 0x3c5 and the hardware's other EL1 state, both control words, CNTV's compare value, the physical count of its creation, and CNTP's ticks left at that moment |
| `Hypervisors.BootReady` | core/main.c:107-115 | the registrations of el2_main lead to a loop head, with ids 0 and 1, each entry point and stack, and one stage-2 table |
| `Hypervisors.Hypervisor.BootVcpus` | core/main.c:107-115 | from boot, any run keeps the loop invariant and the queue of both vCPUs |
| `Checksum.PatternHolds` | guests/memwalk_os.c:40 | a pattern word with the seed taken away is its index times 256 |
| `Checksum.TagHolds` | guests/guest_tasks.c:32 | a guest id below 2^32 sits in the upper half of its tag |
| `Checksum.FoldUpdate` | guests/memwalk_os.c:42 | replacing any one word of a region mixes its old and its new value into the checksum |
| `Checksum.FoldZeros` | guests/memwalk_os.c:37-42 | a region of zeros has checksum 0, which with FoldUpdate fixes every checksum |
| `Checksum.FillRegion` | guests/memwalk_os.c:37-43 | each word with the seed taken away is its index times 256; the result is the checksum of what was written |
| `Checksum.RereadRegion` | guests/guest_tasks.c:29-34 | the loop returns the checksum of the tagged words and changes nothing |
| `Checksum.TagsCancel` | guests/guest_tasks.c:30-34 | the guest tag cancels over an even word count and remains once over an odd one |
| `Checksum.ChecksumsAgreeIff` | guests/guest_tasks.c:28-36 | writer's and re-reader's checksums agree exactly when the count is even or the tag is 0 |
| `Checksum.PairsDiffer` | guests/memwalk_os.c:40 | neighbouring pattern words differ in bit 8 only, for every seed and index |
| `Checksum.ChecksumVanishes` | guests/memwalk_os.c:37-43 | over any multiple of four words the checksum is 0, for every seed |
| `Checksum.MemwalkIteration` | guests/memwalk_os.c:37-47 | one iteration leaves that pattern and reports its checksum twice: equal for even counts, both 0 for multiples of four |

## Left out

- ESR decoding (`core/trap.c:9-60`): the decoders do not follow the manual's ISS layout; the model starts at the decoded register, rt and direction.
- HVC immediate decoding: traps are already named; HVC 0x63 and unknown traps are one hanging case.
- MapPage: memory type and shareability have no effect on a translation here (their bits are pinned by MemoryAttributes); address, valid, access flag, R/W and XN bits do.
- TLB maintenance, barriers, MAIR, VTCR, HCR, SCTLR and enabling the MMUs.
- ISTATUS and interrupt delivery: control words are their two writable bits, and timer facts are remaining ticks modulo 2^64.
- FP, SVE, PAuth and VGIC save and restore, and VBAR_EL1: register copies with no interplay. The code does not save FP state on an ordinary trap, and nothing is claimed about it.
- IRQ, FIQ and SError vectors: traps are synchronous.
- Console output, the exception dump and guest_shared_dump; HVC 0x60 reads and prints guest memory and changes nothing in the model.
- Hypervisor.WorldSwitch: uses Restore and Capture for the assembly; SwitchAsm proves the instruction sequences equal to them, on a separate Cpu object.
- Hypervisor.VcpuRun: the endless loop runs for the rounds of a given finite trace.
- TableTree: child pointers are pool indices with -1 for NULL; a panic is a false result after which nothing is promised.
- Trapframes are immutable records inside the vCPU pool except in SwitchAsm, where they are 44 words in memory.
- SetLeaf: a page-table write is one 8-byte store; concurrent hardware walks are not modelled.
- Boot assembly, guest EL1 vectors, delay loops, the mailbox slots and the placement of guest stacks.
