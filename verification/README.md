# Verified model of Xermu's core

Xermu is an Xbox emulator that compiles x86 guest code to x86-64. This project models the parts of it whose
correctness is least obvious from one function body, and proves what they are for. It is plain Dafny 4.11;
`dafny verify dfyconfig.toml` checks all of it.

| files | part of the emulator |
|---|---|
| `Words` | 8- and 32-bit words, wrap-around, little-endian words in byte memory |
| `Paging`, `Translation`, `SoftTlb`, `BlockCopy`, `Mmu`, `BootTables` | the page-table walk with its accessed and dirty bits, what it does from the bits of the entries alone, the software TLB, block copies between host and guest, the boot page tables |
| `HostCode`, `Emitter`, `EaEmitter`, `Fastmem` | the x86-64 subset the JIT emits, operand compilation, memory accesses and their patching on a fault |
| `Eflags`, `FlagLiveness` | EFLAGS bits, the backward flag pass of the trace builder and the save/restore it decides |
| `TraceState`, `TraceLinking`, `TraceExits`, `TraceRuntime` | traces, link slots and the exits they stand for, trace cache, code cache, write protection and invalidation |
| `PushBuffer`, `PushLaws`, `PushRuns`, `PushPrograms`, `PushDrains`, `PushRuntime` | the NV2A push-buffer interpreter: commands and their words, independence of budgets, calls as inlining and jumps as joining, draining, and the interpreter in place |
| `IoQueue`, `IoReports` | the I/O request protocol between the guest thread and the worker, and what asking for a request reports |
| `HelperMemory`, `SubFlags`, `StringOps`, `StringScans`, `Interrupts` | string instructions, subtraction flags, interrupt delivery and IRETD |
| `Rc4`, `Pit`, `Scheduler`, `SchedulerLaws`, `SchedulerRuntime` | the boot ROM's cipher, timer channel 0, the cooperative thread scheduler |

## How the model is built

Guest RAM is a sequence or array of bytes, registers are integers below 2^32 with explicit wrap-around, and
EFLAGS are 32-bit vectors. Code that the emulator runs in place appears twice: as a class or method with the
same fields, loops and branches, and as a function that its contract equates it with. The theorems are about the
functions, so the method's `ensures` carries them over. `HostCode` is an independent decoder and semantics for
the emitted instructions, written from the Intel SDM (Vol. 2A sections 2.1.5 and 2.2.1), not from the emitter.

Guest code, the executor's runs, the scheduling of the two I/O threads and what the host memory holds are
parameters, so every statement is over all of them.

## What the proofs found

These are places where the code does something other than its comments or the obvious reading promise. The model
follows the code; each has a lemma.

- The PIT in mode 0 looks at `enabled` once per call, so one call that runs past a multiple of the divisor raises
  the interrupt again. It is raised exactly once if and only if the call that reaches N ends before 2 N
  (`Pit.OneShotIsSingle`, `Pit.OneShotFiresAgain`). All callers in the repository tick once per call, which meets
  that condition (`Pit.SingleSteps`).
- The IRETD mask 0x3F7FD5 is documented as masking out VM, IOPL, VIF, VIP and RF. It keeps them; it drops only bits
  1, 3, 5 and 15 and everything above bit 21 (`Interrupts.FlagsRestored` says what comes back).
- A trace displaced from its cache slot by a trace for another EIP stays valid and linked when its page is written
  (`TraceLinking.DisplacedTraceSurvives`). `TraceLinking.InvalidationIsComplete` says exactly when invalidation is
  complete.
- The bound check of the page walk wraps for a table based at the top page, and for no other
  (`SoftTlb.EscapesOnlyAtTopPage`).
- Storing a completed I/O request under an identifier that is still in the completion map loses it for good. A run
  from start-up that does so is `IoQueue.ClashingRunLoses`; a run loses nothing exactly when no step of it does
  (`IoQueue.RunConserves`).
- MOVZX r16, byte [mem] is meant to load R14D, but its REX prefix 43 lacks the R bit: it loads ESI and R14D keeps the
  effective address (`Fastmem.WordMovzxLoadsEsi`).
- write_guest_block of a chunk that unmaps its own page succeeds, where the same bytes written one by one fault
  (`Mmu.UnmappingWriteDiffers`).
- A flag-saving dispatch that itself writes a flag live after it always has a program that sees the write lost
  (`FlagLiveness.LostWriteIsVisible`); ADC on memory followed by a jump on carry is one
  (`FlagLiveness.AddWithCarryLosesCarry`).

## Model

| member | source | states |
|---|---|---|
| Paging.WalkGrows | src/cpu/executor.cpp:527-601 | a walk changes memory only by setting accessed and dirty bits of aligned words, and afterwards every walk it mapped needs no further bit |
| Paging.MarkGrows | src/cpu/executor.cpp:551-555 | setting the A/D bits keeps every other field of an entry and clears none |
| Paging.GrowthKeepsOutcome | src/cpu/executor.cpp:535-590 | A/D bits set anywhere, also inside the tables of a self-mapped directory, change no walk's address or fault |
| Paging.GrowthKeepsTranslation | src/cpu/executor.cpp:535-590 | a mapped write walk leaves the read walk mapped to the same address |
| Paging.GrowthKeepsSettled | src/cpu/executor.cpp:574-584 | a walk with nothing left to set still has nothing left to set after any A/D updates |
| Paging.WalkByPage | src/cpu/executor.cpp:547-590 | translation works page by page and keeps the low twelve bits |
| Paging.AliasByPage | src/cpu/executor.hpp:25-31 | alias_pa commutes with the offset inside a page |
| Translation.TranslationOutcome | src/cpu/executor.cpp:527-601 | from the bits of the two table words alone: a translation maps exactly when both entries are in bounds and present and, for a write, the one that names the frame is writable, and then to its frame; otherwise CR2 is the address, error bit 0 tells a protected page from an absent one, bit 1 a write from a read, a compiled trace stops, and memory is untouched; the accessed bit is set in both entries, the dirty bit only by a write and only in the last |
| Translation.SmallMarks | src/cpu/executor.cpp:574-584 | exactly those accessed and dirty bits and no other bit of any word, also when both entries are the same word |
| Translation.AliasIsWindow | src/cpu/executor.hpp:25-31 | RAM shows again at 2 GB and at 3.75 GB, and no other address is moved |
| Translation.TargetIs | src/cpu/executor.cpp:609-657 | byte i of a block lives at its own address with CR0 bit 31 clear, and otherwise where the entries say |
| Translation.UnpagedRead | src/cpu/executor.cpp:609-629 | without paging a block read returns the bytes of RAM and changes nothing |
| Translation.UnpagedWrite | src/cpu/executor.cpp:637-657 | and a block write replaces exactly those bytes |
| SoftTlb.HitIsWalk | src/cpu/executor.cpp:528-533 | a hit on an entry not made stale returns the walk's address, and the walk would have changed neither memory nor fault state |
| SoftTlb.TranslationKeepsCoherence | src/cpu/executor.cpp:527-601 | after any translation every entry that stores have not made stale says what a walk of its page would find, and a refilled slot is no longer stale |
| SoftTlb.StepTransparent | src/cpu/privileged.cpp:457-467 | each translation that does not hit a stale entry, each INVLPG, CR0 or CR3 write and each store whatever its address answers and changes the guest state as without a TLB |
| SoftTlb.FlushCures | src/cpu/trace_builder.hpp:36-39 | after a flush every entry is harmless, however stale entries were before |
| SoftTlb.InvlpgCures | src/cpu/trace_builder.hpp:40-45 | flush_va makes the entries of its page harmless, however stale they were, and only those |
| SoftTlb.StoreKeepsCoherence | src/cpu/executor.cpp:528-533 | a store to any address leaves every entry true whose walk does not read the byte |
| SoftTlb.TlbIsTransparent | src/cpu/jit_helpers.cpp:70-145 | over any run, stores to page tables included, in which no translation hits an entry that a store has made stale since its fill, INVLPG or CR write, the machine with the TLB and the machine that always walks agree on memory, CR2, error code, stop reason and every returned address |
| SoftTlb.EditThenInvlpg | src/cpu/privileged.cpp:604-612 | any stores, then INVLPG of a page, then its use is such a run: what INVLPG is for |
| SoftTlb.HitAfterTranslation | src/cpu/executor.cpp:556-559 | after a mapped translation the same query is answered by the TLB whatever memory says by then |
| SoftTlb.StaleEntryIsVisible | src/cpu/executor.cpp:528-533 | for every live translation, unmapping it without a flush makes the TLB machine and the walking machine answer differently, so the condition on stale entries is needed |
| SoftTlb.EscapesOnlyAtTopPage | src/cpu/executor.cpp:539-543 | the wrapped bound check lets an access past RAM through exactly for the last word of a table based at the top page |
| SoftTlb.FillSetsSlots | src/cpu/executor.cpp:586-588 | a fill sets the slot of its page in the read table, and on a write in the write table too, and no other |
| SoftTlb.DropClearsPage | src/cpu/trace_builder.hpp:40-45 | INVLPG takes the tag of exactly the entries for its page, in both tables |
| Mmu.Mmu.Translate | src/cpu/executor.cpp:527-601 | the in-place translation has the result and the whole new state (RAM, both tables, CR2, error code) of the specification, which Translation.TranslationOutcome states from the bits of the entries |
| Mmu.Mmu.WalkTables | src/cpu/jit_helpers.cpp:83-144 | the two-level walk in place: address, A/D bits in RAM, fault registers, and whether the page is mapped, as Translation.TranslationOutcome states them |
| Mmu.Mmu.Flush | src/cpu/trace_builder.hpp:36-39 | every entry of both tables loses its tag and nothing else changes |
| Mmu.Mmu.Invlpg | src/cpu/privileged.cpp:604-612 | the entries of that page lose their tag in both tables, all others stay |
| Mmu.Mmu.MovCr0 | src/cpu/privileged.cpp:457-467 | writes CR0 and empties the TLB |
| Mmu.Mmu.MovCr3 | src/cpu/privileged.cpp:457-467 | writes CR3 and empties the TLB |
| Mmu.Mmu.ReadGuestBlock | src/cpu/executor.cpp:609-629 | the loop reads chunk by chunk through whatever the TLB holds, stale entries included, with the whole new state, data and outcome |
| Mmu.Mmu.WriteGuestBlock | src/cpu/executor.cpp:637-657 | the loop writes chunk by chunk through whatever the TLB holds, page-table targets included, with the whole new state and outcome |
| Mmu.ReadChunksAreBytes | src/cpu/executor.cpp:609-629 | if no translation on the way hits a stale entry, a chunked read gives the data, outcome, memory and fault state of translating every byte on its own, and makes no entry stale; entries for other pages may be stale, and with paging off nothing is asked |
| Mmu.WriteChunksAreBytes | src/cpu/executor.cpp:637-657 | if no translation on the way hits a stale entry, entries undermined by earlier chunks included, and no chunk lands on the table words that translate its own page, a chunked write is bytewise translation and storing; other page tables may be written, and which entries that makes stale is exact |
| Mmu.UnmappingWriteDiffers | src/cpu/executor.cpp:647-655 | the second condition is needed: a chunk that clears the present bit of its own page's directory entry with bytes still to come succeeds as a chunk and faults byte by byte |
| Mmu.ClearBlockReads | src/cpu/executor.cpp:609-629 | a block none of whose addresses hits a stale entry or overruns memory meets the condition on reads |
| Mmu.ClearBlockWrites | src/cpu/executor.cpp:637-657 | and the condition on writes if moreover none of its bytes goes to a table word that a walk of its own addresses reads |
| BlockCopy.ReadChunk | src/cpu/executor.cpp:619-627 | one translation and one memcpy per chunk equal a translation per byte; a chunk never leaves its page |
| BlockCopy.WriteChunk | src/cpu/executor.cpp:647-655 | the same for a write whose first chunk does not land on the at most eight table bytes that translate its own page |
| BlockCopy.ReadBytesEffect | src/cpu/executor.cpp:609-629 | a read succeeds iff every byte's translation lies in RAM, and then returns at each i the RAM byte at the translation of va + i, page tables included: exactly that byte unless it is the lowest of a table word the block's own walks read, and then with at most its accessed and dirty bits gained; RAM changes by A/D bits only |
| BlockCopy.WriteBytesEffect | src/cpu/executor.cpp:637-657 | a write none of whose bytes goes to a table word that the block's own walks read succeeds iff every translation lies in RAM, puts each byte at its translation and changes no other byte except A/D bits |
| BlockCopy.WriteThenRead | src/cpu/executor.cpp:609-657 | for distinct target pages, none a table word that the block's own walks read, a read after a write returns the data, across any number of pages and with paging on or off |
| BootTables.SetupPageTables | src/xbox/nboxkrnl_boot.hpp:40-56 | the loops leave exactly the boot directory and no other change |
| BootTables.BootAddressSpace | src/xbox/nboxkrnl_boot.hpp:40-56 | for all 2^32 addresses and both access kinds the boot tables mean identity, kernel mirror, self-map window or not present, and no walk through them changes RAM |
| BootTables.SelfMapWalk | src/xbox/nboxkrnl_boot.hpp:40-56 | through the self-map the directory serves as its own page table |
| BootTables.BootWriteReadsBack | src/cpu/executor.cpp:609-657 | under the boot tables a block written to RAM at its own address succeeds and reads back, unless it touches the 32 directory entries that translate RAM |
| BootTables.BootWriteUnmapsItself | src/xbox/nboxkrnl_boot.hpp:40-56 | a write at the page directory that clears the present bit of its first entry is a case of Mmu.UnmappingWriteDiffers |
| Emitter.Emitter.Emit32 | src/cpu/emitter.hpp:56-60 | appends the little-endian bytes of a word |
| Emitter.Emitter.PadTo | src/cpu/emitter.hpp:87-89 | pads a region with single-byte NOPs to the asked length and leaves a long one alone |
| EaEmitter.EaPreservesMeaning | src/cpu/emitter.hpp:352-501 | decoding and running the bytes for any accepted operand leaves R14D = (segment + base + index*scale + disp) mod 2^32 and every other register and memory unchanged; flags change only for FS and GS |
| EaEmitter.RejectsExactly | src/cpu/emitter.hpp:352-501 | an operand is refused exactly for a CS or ES override, a base that is no 32-bit register, or an index that is no 32-bit register or is ESP |
| EaEmitter.ContextOffsets | src/cpu/context.hpp:48-142 | the offsets in the emitted code follow from the layout of the context |
| EaEmitter.EmitEaToR14 | src/cpu/emitter.hpp:352-501 | the emitter appends exactly those bytes, or rejects the operand and appends nothing |
| EaEmitter.CoreRuns | src/cpu/emitter.hpp:376-487 | base, index and displacement alone, in each of the encodings chosen for ESP, EBP, index-only and absolute operands |
| EaEmitter.LoadEspRuns | src/cpu/emitter.hpp:720-724 | the guest ESP is fetched from the context into R14D |
| EaEmitter.SegmentAddRuns | src/cpu/emitter.hpp:489-499 | the segment base from the context is added to R14D |
| Fastmem.EmitSite | src/cpu/trace_builder.cpp:946-993 | a site (these lines and 68-98) is the access, for MOVZX or MOVSX into ESP with the store of R8D to the context, padded to at least five bytes; its recorded length is the region's |
| Fastmem.EmitMove | src/cpu/emitter.hpp:603-614 | the bytes of a register load or store at [R12+R14] |
| Fastmem.EmitExtend | src/cpu/emitter.hpp:618-638 | the bytes of a zero- or sign-extending load |
| Fastmem.EmitStoreImm32 | src/cpu/emitter.hpp:642-646 | the bytes of a 32-bit immediate store |
| Fastmem.EmitStoreImm16 | src/cpu/emitter.hpp:649-655 | the bytes of a 16-bit immediate store |
| Fastmem.EmitStoreImm8 | src/cpu/emitter.hpp:658-662 | the bytes of an 8-bit immediate store |
| Fastmem.DecoderInvertsEmitter | src/cpu/veh_handler.cpp:629-671 | for every register, size, direction and immediate the fault handler's decoder recovers the operands that were emitted, whatever code follows |
| Fastmem.OtherOpcodesRefused | src/cpu/veh_handler.cpp:629-671 | the handler decodes nothing but the seven opcodes of accesses |
| Fastmem.PaddingFollows | src/cpu/trace_builder.cpp:68-98 | behind any other access there are only NOPs, up to five bytes |
| Fastmem.AccessMeansItsOperands | src/cpu/emitter.hpp:603-662 | as x86-64 code the access is exactly that load, extending load or store at [R12+R14], of that register, size and sign, and has the operands the handler finds, by the independent decoder |
| Fastmem.EspStoreFollows | src/cpu/emitter.hpp:747-751 | an unpatched load into ESP goes on to store R8D at the context offset of guest ESP, and the region ends there |
| Fastmem.WordMovzxLoadsEsi | src/cpu/trace_builder.cpp:930-932 | MOVZX r16, byte [mem] as emitted loads ESI, for the processor and for the fault handler, not R14D |
| Fastmem.BranchLands | src/cpu/veh_handler.cpp:715-717 | a CALL or JMP rel32 written this way reaches its target |
| Fastmem.ThunkWorks | src/cpu/veh_handler.cpp:683-698 | the thunk loads R15D with the immediate and jumps to the shared tail |
| Fastmem.NopsSlide | src/cpu/veh_handler.cpp:718-719 | a run of NOPs executes through to what follows it without effect |
| Fastmem.CodeSpace.PatchSite | src/cpu/veh_handler.cpp:629-722 | a site is patched iff its bytes decode and an immediate store finds room in the slab; it then calls the helper or thunk of its operands, and nothing but the region and that thunk changed |
| Fastmem.CodeSpace.BuildThunk | src/cpu/code_cache.hpp:64-70 | builds the thunk in exactly the next 16-byte slot iff the slab has one, and changes nothing else |
| Fastmem.ServedBySize | src/cpu/veh_handler.cpp:672-722 | the branch in a patched site reaches the helper for exactly that register and size, or a thunk that loads the immediate and goes on to the helper for that size |
| Fastmem.RoomIsUnusedSlot | src/cpu/code_cache.hpp:64-70 | the slab has room as long as one of its 16-byte slots is unused |
| Fastmem.EmitAndPatch | src/cpu/veh_handler.cpp:621-722 | a site emitted for an access and then patched calls what serves exactly the operands of that access; only an immediate store needs room in the slab |
| FlagLiveness.AnalyseLiveness | src/cpu/trace_builder.cpp:1287-1296 | the backward pass asks for a save exactly at a dispatch with an arithmetic flag live before it, and so leaves what the soundness theorem requires |
| FlagLiveness.LivenessIsExact | src/cpu/trace_builder.cpp:1279-1296 | a flag is live before instruction i iff some instruction from i on tests it with no write in between |
| FlagLiveness.SavesWhereNeeded | src/cpu/trace_builder.cpp:1287-1296 | flags are saved at exactly those dispatches behind which, themselves included, one of the six arithmetic flags is tested before it is written |
| FlagLiveness.HostFlags | src/cpu/trace_builder.cpp:465-470 | a saved dispatch leaves the flags as they were, another leaves the helper's arithmetic flags and the rest as it was, and an ordinary instruction changes only the flags it writes |
| FlagLiveness.LivenessIsSound | src/cpu/trace_builder.cpp:465-470 | for all instruction semantics and all scramblings, every instruction tests the same flag values as in an undisturbed run |
| FlagLiveness.LostWriteIsVisible | src/cpu/trace_builder.cpp:465-470 | if a saved dispatch writes a flag live after it, some program sees the difference: the condition of soundness is necessary |
| FlagLiveness.AddWithCarryLosesCarry | src/cpu/trace_builder.cpp:465-470 | ADC on memory followed by a test of CF: the carry is lost |
| TraceLinking.ReachableInv | src/cpu/executor.cpp:916-1005 | along every run linked exits go forward to valid code for their target, invalid traces have no linked exit, slots hold the newest trace and code blocks do not overlap |
| TraceLinking.EveryRunKeepsInv | src/cpu/executor.cpp:916-1005 | the same for every run from start-up, and with paging off the pages of cached traces are write-protected |
| TraceLinking.DispatchKeepsInv | src/cpu/executor.cpp:916-1005 | one look-up, build, flush, insert and link keeps all of it |
| TraceLinking.InvalidateKeepsInv | src/cpu/executor.cpp:278-314 | so does the invalidation of a code page |
| TraceLinking.TryLinkKeepsInv | src/cpu/executor.cpp:320-339 | so does linking one trace's exits |
| TraceLinking.SurvivorLinksSound | src/cpu/executor.cpp:344-358 | links that survive an invalidation still enter a surviving trace |
| TraceLinking.InvalidationIsComplete | src/cpu/executor.cpp:278-314 | after a write to a code page no valid trace starts there exactly when, before it, every valid trace of the page was in its cache slot; by TraceLinking.InvalidateKeepsInv no link then enters one |
| TraceLinking.DisplacedTraceSurvives | src/cpu/trace.hpp:111-116 | a reachable state in which a write to a page leaves a valid, linked trace of that page |
| TraceLinking.ChainsAreFinite | src/cpu/executor.cpp:320-339 | guest EIPs strictly increase along linked jumps, so a chain repeats no trace and is bounded by the arena and by the distance to 2^32 |
| TraceLinking.LookupIsNewest | src/cpu/trace.hpp:118-123 | lookup answers with the newest trace built for exactly that EIP, or nothing |
| TraceLinking.HostRangesDisjoint | src/cpu/code_cache.hpp:49-61 | host code ranges of traces are disjoint and inside the slab |
| TraceExits.EveryLinkIsItsExit | src/cpu/trace_builder.cpp:1598-1617 | in every reachable state each trace came out of one of the run's emissions for its EIP, its link slots are the last two exits of that emission in order, and the jump at each exit leads to its own cold stub or into valid code for the guest EIP emitted there |
| TraceExits.LinksWhatItCan | src/cpu/executor.cpp:320-339 | linking leaves exactly the backward exits and those without a cached valid target unlinked |
| TraceExits.DispatchFinds | src/cpu/executor.cpp:916-1005 | dispatch hands back a valid cached trace for the EIP asked for, or none, and then only without code |
| TraceExits.BuildOutcome | src/cpu/code_cache.hpp:51-70 | when a build succeeds, where its code goes, how much of the slab and the arena it takes, and what a failing one leaves |
| TraceExits.SlotIsHalfword | src/cpu/trace.hpp:111-123 | the cache slot of an EIP is its halfword number modulo 2^26 |
| TraceExits.InvalidateOutcome | src/cpu/executor.cpp:278-314 | a write to a protected page unprotects it and invalidates exactly the cached traces that start there; any other write does nothing |
| TraceRuntime.TraceRuntime.LookupTrace | src/cpu/trace.hpp:118-123 | the in-place look-up |
| TraceRuntime.TraceRuntime.BuildTrace | src/cpu/trace_builder.cpp:1598-1617 | allocation, finalisation with the last two exits as link slots (TraceExits.EveryLinkIsItsExit), and both ways of failing, on the arena and the bump pointer |
| TraceRuntime.TraceRuntime.FlushAll | src/cpu/trace.hpp:101-109 | empties cache, code cache and arena, which re-establishes every invariant |
| TraceRuntime.TraceRuntime.TryLinkTrace | src/cpu/executor.cpp:320-339 | patches every unlinked forward exit whose target is cached and valid, and no other |
| TraceRuntime.TraceRuntime.UnlinkTrace | src/cpu/executor.cpp:344-358 | resets every valid trace's exits into code for the EIP |
| TraceRuntime.TraceRuntime.InvalidateCodePage | src/cpu/executor.cpp:278-314 | the scan over the page's slots leaves exactly the specified state |
| TraceRuntime.TraceRuntime.Step | src/cpu/executor.cpp:916-1005 | the run loop's work between two traces, and write protection of the pages of cached traces kept |
| TraceRuntime.TraceRuntime.FindByHost | src/cpu/veh_handler.cpp:186-205 | the first trace found by host address is the only one holding it; none found means none cached holds it |
| IoQueue.StepKeepsInv | src/xbox/nboxkrnl_io.hpp:466-572 | every atomic step of either thread keeps lock ownership and the wake-up invariant |
| IoQueue.ConservationIsExact | src/xbox/nboxkrnl_io.hpp:481-572 | a step conserves requests iff it does not store over a taken identifier |
| IoQueue.RunConserves | src/xbox/nboxkrnl_io.hpp:466-572 | a whole run conserves requests iff none of its steps does; what is lost never comes back |
| IoQueue.ClashingRunLoses | src/xbox/nboxkrnl_io.hpp:568-570 | a run from start-up with two requests under one identifier that loses the second |
| IoQueue.OverwriteNeedsClash | src/xbox/nboxkrnl_io.hpp:568-570 | that step needs two requests in flight under one identifier |
| IoQueue.DistinctKept | src/xbox/nboxkrnl_io.hpp:410-530 | identifiers in flight stay distinct when the guest's new ones are fresh |
| IoQueue.RequestsAreConserved | src/xbox/nboxkrnl_io.hpp:466-572 | under every interleaving each outstanding request is in exactly one of retry buffer, queue, a thread's hand and completion map |
| IoQueue.ReportedAtMostOnce | src/xbox/nboxkrnl_io.hpp:481-516 | a request is reported as often as it was submitted less what is in flight, never more; that it is reported at all is IoReports.SubmitDrainQuery |
| IoQueue.NoLostWakeUp | src/xbox/nboxkrnl_io.hpp:519-572 | under every interleaving, whatever identifiers are used: when the queue lock is free and the queue is not empty the flag is set and the worker is not asleep for good |
| IoQueue.WorkerDrains | src/xbox/nboxkrnl_io.hpp:535-572 | left alone the worker empties the queue and sleeps, and every request it had is then found by a query |
| IoReports.SubmitDrainQuery | src/xbox/nboxkrnl_io.hpp:410-572 | from any good state a request submitted under a fresh identifier, once the worker has had its time, is reported by a query for it; the queue is then empty and every request that was queued before waits in the map |
| IoReports.QueryReports | src/xbox/nboxkrnl_io.hpp:481-516 | asking for a finished request is possible, reports exactly it and removes exactly it from the map |
| IoReports.QueryMisses | src/xbox/nboxkrnl_io.hpp:481-516 | asking for an identifier that is not in the map changes nothing |
| IoReports.SubmitRuns | src/xbox/nboxkrnl_io.hpp:410-464 | a submission that gets the lock appends its request, sets the flag and wakes the worker |
| IoReports.FlushRuns | src/xbox/nboxkrnl_io.hpp:466-479 | a flush that gets the lock moves the whole retry buffer to the end of the queue, in order, and wakes the worker |
| IoReports.InOrder | src/xbox/nboxkrnl_io.hpp:466-572 | first in, first out along every run: the requests carried out, the one in hand and the queue are those that were there and those put on the queue, in that order; likewise the retry buffer |
| IoReports.GuestSteps | src/xbox/nboxkrnl_io.hpp:410-530 | which steps the guest thread can take from each of its places |
| IoReports.WorkerSteps | src/xbox/nboxkrnl_io.hpp:535-572 | which steps the worker can take from each of its places |
| PushBuffer.MethodDecodes | src/xbox/nv2a.hpp:476-485 | every method header built from its fields decodes to them, except that the all-zero word is a NOP |
| PushBuffer.TargetsDecode | src/xbox/nv2a.hpp:441-462 | both jump forms and the call form decode to the target they were built for |
| PushBuffer.ObjectResolves | src/xbox/nv2a.hpp:400-403 | a DMA object built for a base address below 128 MB resolves to it |
| PushBuffer.MethodEffect | src/xbox/nv2a.hpp:504-582 | a method never moves GET or SUBROUTINE |
| PushLaws.HeaderKinds | src/xbox/nv2a.hpp:441-485 | the kind, target, method, subchannel and count of every one of the 2^32 header words |
| PushLaws.ControlFlow | src/xbox/nv2a.hpp:430-474 | where GET and SUBROUTINE go on every word that is no method: both jumps, calls and returns inside and outside a call, words stepped over; a header outside RAM blocks |
| PushLaws.MethodSteps | src/xbox/nv2a.hpp:476-585 | where GET goes on a method, how many words it takes, and that nothing but the reference fence or data outside RAM ends a tick |
| PushLaws.ObjectWords | src/xbox/nv2a.hpp:380-404 | a DMA object comes from RAM at the instance base, and from the device's own instance memory when there is none, it does not reach that far or both words are zero there |
| PushLaws.AddressBits | src/xbox/nv2a.hpp:400-403 | which bits of frame and flags make up the address of a DMA object |
| PushLaws.NotifyZeroes | src/xbox/nv2a.hpp:533-560 | NOTIFY zeroes the last word of the entry its data number in the subchannel's notifier object, if the entry lies in RAM, and nothing else |
| PushLaws.NotifyBounds | src/xbox/nv2a.hpp:533-560 | a NOTIFY whose entry lies behind RAM is stepped over; exactly a wrapped bound check lets one through |
| PushLaws.MirrorWord | src/xbox/nv2a.hpp:586-606 | after a tick GET is mirrored in word 1 of the channel's RAMFC entry when that lies in instance memory, and no other byte changes |
| PushLaws.TickRegisters | src/xbox/nv2a.hpp:406-606 | an active tick leaves DMA_GET equal to GET and the idle status exactly at PUT |
| PushPrograms.HeadRegisters | src/xbox/nv2a.hpp:504-582 | one command sets exactly the register or notifier context it names, or zeroes the completion word of its notifier entry, and leaves every other register and byte |
| PushRuns.AdvanceMore | src/xbox/nv2a.hpp:430-586 | m commands and then n commands are m + n commands |
| PushRuns.LoopFollows | src/xbox/nv2a.hpp:430-586 | the budgeted loop of one tick is a stretch of the unbudgeted run |
| PushRuns.TicksFollow | src/xbox/nv2a.hpp:406-606 | so is any sequence of ticks, up to the RAMFC word that mirrors GET; status, DMA_GET and mirror are consistent after each |
| PushRuns.BudgetsDoNotMatter | src/xbox/nv2a.hpp:406-606 | two divisions of the work into budgeted ticks that both finish end in the same pusher: GET, SUBROUTINE, REF, surface registers, notifier contexts, RAM and status |
| PushRuns.DetachedIsCalm | src/xbox/nv2a.hpp:380-404 | without instance memory in RAM every run that stays inside RAM meets the condition of that theorem |
| PushPrograms.StraightRuns | src/xbox/nv2a.hpp:476-585 | a straight-line word list in memory has its address-free effect, with GET behind it, and leaves the protected bytes alone |
| PushPrograms.RegistersHoldLastData | src/xbox/nv2a.hpp:504-580 | after a straight-line buffer each reference and surface register and each notifier context holds the data of the last command for it, or its old value |
| PushPrograms.CallRuns | src/xbox/nv2a.hpp:457-474 | CALL, body and RETURN have the effect of the body, with GET just past the CALL and SUBROUTINE cleared |
| PushPrograms.JumpCommand | src/xbox/nv2a.hpp:441-455 | JUMP in either encoding sets GET to its target, takes one word and changes nothing else |
| PushPrograms.CallsRun | src/xbox/nv2a.hpp:441-474 | a buffer with any number of calls, and of pieces joined by jumps in either encoding, has the effect of its flattened words and ends where its last piece ends |
| PushPrograms.CallIsInlining | src/xbox/nv2a.hpp:441-474 | running it and running a flattened copy elsewhere in the same memory end alike but for GET and SUBROUTINE |
| PushPrograms.LoopDrains | src/xbox/nv2a.hpp:430-586 | a well-formed straight-line buffer without fences is drained to GET == PUT by one loop that can afford it |
| PushPrograms.TickDrains | src/xbox/nv2a.hpp:406-606 | the tick then reports GET == PUT, DMA_GET and the idle status |
| PushDrains.PreparedIsCalm | src/xbox/nv2a.hpp:430-586 | a static layout, the buffer with its calls and jumps and the DMA objects apart from the mirrored GET word, gives the condition of BudgetsDoNotMatter and the result of the run |
| PushDrains.TicksFinish | src/xbox/nv2a.hpp:406-606 | as many ticks as commands, each with any positive budget, run to the end |
| PushDrains.TicksDrain | src/xbox/nv2a.hpp:406-606 | any such ticks drain a laid-out buffer, calls, jumps and fences included, also when the first of them takes GET from DMA_GET: GET, DMA_GET and the mirrored word at PUT, idle status, and otherwise the effect of the flattened words |
| PushDrains.FirstTick | src/xbox/nv2a.hpp:406-428 | a pusher that has not started takes its first GET from DMA_GET |
| PushDrains.Dormant | src/xbox/nv2a.hpp:406-428 | switched off, or never started and with PUT still zero, a tick does nothing |
| PushRuntime.Fifo.TickFifo | src/xbox/nv2a.hpp:406-606 | the loop over registers, notifier table and RAM in place leaves the state of the specification |
| PushRuntime.Fifo.Step | src/xbox/nv2a.hpp:431-586 | one turn of that loop, with its break and continue cases |
| PushRuntime.Fifo.Dispatch | src/xbox/nv2a.hpp:480-584 | the method commands in place, including the fence that ends the tick |
| PushRuntime.Fifo.Notify | src/xbox/nv2a.hpp:533-560 | the completion word of the notifier entry is zeroed when the entry lies in RAM |
| SubFlags.Meaning | src/cpu/jit_helpers.cpp:465-483 | CF iff unsigned less, ZF iff equal, SF iff the truncated difference is negative, OF iff the exact signed difference leaves the range, SF xor OF iff signed less, AF iff the low nibble borrows, PF iff the low byte of the difference has an even number of ones, and no other bit, for all three sizes |
| StringOps.LastPair | src/cpu/jit_helpers.cpp:542-601 | all flags a scan leaves are those of the last pair compared, and all bits outside the arithmetic flags are kept |
| StringOps.ComparesOnce | src/cpu/jit_helpers.cpp:559-601 | how many elements a scan compares is determined by what it sees |
| StringOps.RepneFinds | src/cpu/jit_helpers.cpp:569-601 | REPNE stops at the first match: ZF iff there is one among the count, and the element before EDI is the first |
| StringOps.RepeDiffers | src/cpu/jit_helpers.cpp:542-567 | REPE stops at the first difference: ZF iff the whole stretch agrees; what agrees is StringScans.CmpsStops |
| StringOps.StringLength | src/cpu/jit_helpers.cpp:569-601 | REPNE SCASB for zero with ECX all ones leaves NOT ECX - 1 equal to the string length |
| StringScans.CmpsStops | src/cpu/jit_helpers.cpp:542-567 | over the bytes in RAM: a repeated CMPS compares n elements iff the bytes at ESI and EDI agree (REPE) or differ (REPNE) for all but the last of them and the last does not, unless the count is used up |
| StringScans.ScasStops | src/cpu/jit_helpers.cpp:569-601 | the same for SCAS, with the low bytes of EAX against the bytes at EDI |
| StringScans.CmpsFlags | src/cpu/jit_helpers.cpp:542-567 | the flags are those of the last element at ESI less the last element at EDI |
| StringScans.ScasFlags | src/cpu/jit_helpers.cpp:569-601 | the flags are those of the low bytes of EAX less the last element at EDI |
| StringScans.DirectionFlag | src/cpu/jit_helpers.cpp:485-503 | the direction is bit 10 of EFLAGS |
| StringOps.StringUnit.Scas | src/cpu/jit_helpers.cpp:569-601 | exact ECX, EDI and flags for every size, direction, repeat prefix and count, zero included |
| StringOps.StringUnit.Cmps | src/cpu/jit_helpers.cpp:542-567 | exact ECX, ESI, EDI and flags likewise; over the bytes of memory by StringScans.CmpsStops and StringScans.CmpsFlags |
| StringOps.StringUnit.Movs | src/cpu/jit_helpers.cpp:487-503 | memory is that of the sequential element copy, with exact ECX, ESI and EDI |
| StringOps.StringUnit.Stos | src/cpu/jit_helpers.cpp:505-519 | memory is that of the sequential fill, with exact ECX and EDI |
| StringOps.ForwardCopies | src/cpu/jit_helpers.cpp:487-503 | a forward move to a destination at or below the source is a block copy, overlap or not |
| StringOps.ForwardRepeats | src/cpu/jit_helpers.cpp:487-503 | a forward move to a destination at least one element above the source repeats the gap between them |
| StringOps.BackwardCopies | src/cpu/jit_helpers.cpp:487-503 | a backward move is a block copy when the destination is above the source or apart from it |
| StringOps.BackwardRepeats | src/cpu/jit_helpers.cpp:487-503 | a backward move to a destination at least one element below the source repeats the gap between them from the high end |
| StringOps.ForwardShears | src/cpu/jit_helpers.cpp:487-503 | a forward move to a destination less than one element above the source: which bytes arrive as they were and which as the element before has just overwritten them |
| StringOps.BackwardShears | src/cpu/jit_helpers.cpp:487-503 | the mirror image for a backward move to a destination less than one element below the source |
| StringOps.DisjointMove | src/cpu/jit_helpers.cpp:487-503 | in either direction a move between disjoint ranges is a block copy and changes nothing else |
| StringOps.FillsForward | src/cpu/jit_helpers.cpp:505-519 | a forward fill repeats the low bytes of EAX over the whole range and changes nothing else |
| StringOps.FillsBackward | src/cpu/jit_helpers.cpp:505-519 | a backward fill leaves the same bytes as a forward fill of the same range |
| HelperMemory.StoreAt | src/cpu/jit_helpers.cpp:179-188 | guest_write in place |
| HelperMemory.LoadAt | src/cpu/jit_helpers.cpp:167-177 | guest_read in place, with its two out-of-RAM answers |
| HelperMemory.ReadsBytes | src/cpu/jit_helpers.cpp:167-177 | a helper reads the element's bytes and zeroes above; zero at a faulting address and all ones behind RAM |
| HelperMemory.WritesBytes | src/cpu/jit_helpers.cpp:179-188 | a helper writes the low bytes of the value, and nothing behind RAM |
| Interrupts.FrameLayout | src/cpu/executor.cpp:463-499 | a delivery leaves EIP, selector and EFLAGS with the virtual IF in the twelve bytes below ESP and changes no other byte |
| Interrupts.DeliveryHappens | src/cpu/executor.cpp:407-490 | a vector is delivered exactly when its descriptor lies within the IDT limit and in RAM and is present and the frame, of four words with an error code, fits under an ESP in RAM |
| Interrupts.DeliveryOutcome | src/cpu/executor.cpp:407-507 | the frame word by word from the top, the error code below it, the handler and selector of the gate, the virtual IF cleared exactly by an interrupt gate, and no other byte changed |
| Interrupts.IretOutcome | src/cpu/jit_helpers.cpp:434-445 | IRETD pops EIP and EFLAGS, drops twelve bytes, takes the virtual IF from bit 9 and keeps the flags of its mask, bit 1 set |
| Interrupts.GateEnters | src/cpu/executor.cpp:440-461 | through a gate descriptor built from a handler, selector and type, delivery enters that handler, pushes that selector and clears the virtual IF exactly for an interrupt gate |
| Interrupts.IretUndoes | src/cpu/jit_helpers.cpp:434-445 | IRETD at an intact frame restores EIP, ESP, the virtual IF and every EFLAGS bit of its mask |
| Interrupts.NestingKeepsStack | src/cpu/executor.cpp:407-507 | wherever handlers move ESP below their frame, whatever they do outside the protected bytes and however deep they nest, no delivery fails, each level ends with its ESP back, and the protected bytes, outer frames and stack data included, are untouched |
| Interrupts.InterruptIsTransparent | src/cpu/executor.cpp:407-507 | an interrupt with everything nested in it leaves EIP, ESP, the stack above it, the virtual IF and the kept flags of the moment of delivery, and execution goes on from there |
| Interrupts.InterruptUnit.DeliverInterrupt | src/cpu/executor.cpp:407-507 | delivery in place, with every halting case |
| Interrupts.InterruptUnit.Iretd | src/cpu/jit_helpers.cpp:434-445 | IRETD in place |
| Rc4.SetupIsPermutation | src/xbox/hle/bootstrap.hpp:375-381 | S is a permutation of 0..255 after every round of key setup |
| Rc4.GeneratorIsPermutation | src/xbox/hle/bootstrap.hpp:382-388 | and after every byte generated |
| Rc4.SetupRound | src/xbox/hle/bootstrap.hpp:375-381 | a round of key setup from its congruences: j moves on by S[i] and the key byte, the key repeating, and S[i] and S[j] change places |
| Rc4.GeneratorStep | src/xbox/hle/bootstrap.hpp:382-388 | a generator step likewise, starting from the finished setup |
| Rc4.KeystreamByte | src/xbox/hle/bootstrap.hpp:382-388 | the byte it yields is the entry at the sum of the two that changed places |
| Rc4.CryptedByte | src/xbox/hle/bootstrap.hpp:383-388 | byte n is masked with byte n of a keystream that depends on the key alone |
| Rc4.CryptUndoesItself | src/xbox/hle/bootstrap.hpp:372-389 | applying the cipher twice restores the data, for every non-empty key |
| Rc4.PrefixCrypts | src/xbox/hle/bootstrap.hpp:372-389 | the result for a prefix does not depend on what follows it |
| Rc4.Crypt | src/xbox/hle/bootstrap.hpp:372-389 | the array algorithm leaves exactly the enciphered data |
| Pit.PeriodicDivides | src/xbox/pit.hpp:32-53 | modes 2 and 3 raise exactly floor(k / N) interrupts for k clocks in any grouping, N = 0 meaning 65536, and in mode 3 the output has that number's parity |
| Pit.OneShotCounts | src/xbox/pit.hpp:34-42 | mode 0 raises floor(t / N), t being the clocks up to the end of the call that reaches N |
| Pit.OneShotIsSingle | src/xbox/pit.hpp:32-53 | so it is raised once iff the call that reaches N ends before 2 N |
| Pit.OneShotFiresAgain | src/xbox/pit.hpp:34-42 | divisor 1 and three clocks: three interrupts in one call, one in three calls |
| Pit.SingleSteps | src/xbox/pit.hpp:32-35 | ticking one clock at a time meets that condition |
| Pit.OtherModesSilent | src/xbox/pit.hpp:32-53 | in every other mode the counter runs down and starts over without an interrupt |
| Pit.PitChannel.LoadCount | src/xbox/pit.hpp:20-25 | the reload register with its 16-bit truncation |
| Pit.PitChannel.TickTimes | src/xbox/pit.hpp:32-53 | the tick loop in place |
| Scheduler.StepKeepsSlots | src/xbox/hle/bootstrap.hpp:845-994 | a step runs a thread from its slot, stores what the run left there, touches no other slot and never revives a finished thread |
| Scheduler.FirstTurn | src/xbox/hle/bootstrap.hpp:845-994 | a thread's first turn starts from its slot whatever other threads and deferred calls run before |
| Scheduler.TurnsConnect | src/xbox/hle/bootstrap.hpp:937-943 | each later turn starts with exactly the registers, EIP, EFLAGS and FS base the thread last left |
| Scheduler.SearchFinds | src/xbox/hle/bootstrap.hpp:204-214 | the search for the next thread never passes a live one |
| Scheduler.StepMovesOn | src/xbox/hle/bootstrap.hpp:929-985 | with a fixed thread list a step runs the current thread and comes closer to every other live one |
| Scheduler.TurnComes | src/xbox/hle/bootstrap.hpp:929-985 | so a live thread has its turn within as many steps as there are threads |
| Scheduler.RequestedThreadStarts | src/xbox/hle/bootstrap.hpp:848-883 | each requested thread gets the next slot with its start routine, the stack pointer of the stack it was given or of the default one, all other registers zero, interrupts enabled and the first thread's FS base |
| Scheduler.RequestedThreadStack | src/xbox/hle/bootstrap.hpp:855-867 | it finds the exit stub as its return address and its argument above it, unless a later request shares its stack |
| Scheduler.MainThreadRuns | src/xbox/hle/bootstrap.hpp:885-900 | the first call runs the boot registers as thread 0 when no thread is pending, and a pending thread otherwise |
| SchedulerLaws.StepOutcome | src/xbox/hle/bootstrap.hpp:845-994 | the whole outcome of a step from the outside: the deferred calls first, then one turn of the current thread if it lives, else of the nearest live one; what that turn leaves in every slot, which exit kills exactly its thread, who is created, who is next, and exactly when the system stops |
| SchedulerLaws.FireOutcome | src/xbox/hle/bootstrap.hpp:902-920 | deferred calls fire until there have been as many runs as calls, those they queue themselves included |
| SchedulerLaws.StepHappens | src/xbox/hle/bootstrap.hpp:845-994 | there is a step unless the deferred calls never stop firing |
| SchedulerLaws.NextIsNearest | src/xbox/hle/bootstrap.hpp:204-214 | the search finds the nearest live thread behind in the ring, the thread itself last, and -1 exactly when none lives |
| SchedulerLaws.ExitedThreadsRest | src/xbox/hle/bootstrap.hpp:929-985 | a thread that has exited never has a turn again |
| SchedulerLaws.StoppedStays | src/xbox/hle/bootstrap.hpp:845-847 | a stopped system stays as it is |
| SchedulerRuntime.XboxSystem.SaveThread | src/xbox/hle/bootstrap.hpp:184-192 | stores the context in one slot, or nothing for an index out of range |
| SchedulerRuntime.XboxSystem.RestoreThread | src/xbox/hle/bootstrap.hpp:194-202 | loads the context of one slot, or nothing for an index out of range |
| SchedulerRuntime.XboxSystem.NextAliveThread | src/xbox/hle/bootstrap.hpp:204-214 | the loop over the ring |
| SchedulerRuntime.XboxSystem.PromotePending | src/xbox/hle/bootstrap.hpp:848-883 | every requested thread becomes a slot, in order, with its two stack words in RAM |
| SchedulerRuntime.XboxSystem.Step | src/xbox/hle/bootstrap.hpp:845-994 | run_step in place has the state, the result and the thread of the specification |

## Left out

- Graphics, audio, USB, disk and directory access, the PE and XBE loaders, and the other device register files: no part of the claims above.
- Instruction decoding by Zydis and the assembly trampoline: decoded operands, flag metadata and exits are inputs.
- The contents of compiled traces other than memory operands and accesses: a build takes its code size and exits as inputs.
- The rel32 bytes of a trace link: a link slot records where it leads; `Fastmem.BranchLands` covers the bytes of such a branch.
- The thunk slab's reset on a flush: `Fastmem.CodeSpace` and the trace state are separate.
- Device maps: the helpers are modelled without one, so reads behind RAM float to all ones and writes are dropped.
- Sub-operations that would add only easy members: LODS, PUSHAD and POPAD, ENTER, XLATB, RETF, the PIT port protocol, diagnostics counters.
- Mmu.Mmu.Translate: covers translate_va and translate_va_jit in one method, `jit` telling them apart; walks whose bound check wraps (table based at the top page) are excluded by its requires.
- Mmu.Mmu.MovCr0: the clearing of trace cache, code cache and arena that goes with a CR0 write is the event ModeChange of TraceLinking, not part of this class.
- Mmu.Mmu.ReadGuestBlock: excludes, like translation, reads on whose way a walk overruns memory.
- Mmu.Mmu.WriteGuestBlock: excludes, like translation, writes on whose way a walk overruns memory.
- Translation.TranslationOutcome: says exactly when a walk's wrapped bound check passes for an entry behind RAM, not what the access behind RAM then finds.
- BlockCopy.WriteChunk: a paged chunk that lands on the table words of its own page is described by Mmu.Mmu.WriteGuestBlock only; byte by byte it may change the translation of its own later bytes, as Mmu.UnmappingWriteDiffers shows.
- EaEmitter.EaPreservesMeaning: a base register EIP, which 32-bit guest code cannot name and the emitter treats as no base, is not among the modelled operands.
- Fastmem.AccessMeansItsOperands: says which operands an access has, not that the patched helper has the same effect; for MOVZX and MOVSX it has not, as the read helper merges low bytes instead of extending.
- FlagLiveness.LivenessIsSound: requires that no saved dispatch writes a flag live after it; that this is needed is FlagLiveness.LostWriteIsVisible.
- TraceLinking.InvalidationIsComplete: paging off, where the code page of a trace is the page of its guest EIP; instructions that straddle into the next page are not covered.
- TraceRuntime.TraceRuntime.Step: the translation of the code address before a build and the execution of the trace are inputs.
- PushRuns.BudgetsDoNotMatter: requires that no command or DMA object on the way reads the mirrored RAMFC word, that the buffer base keeps resolving alike, and that no wrapped bound check lets an access outside RAM through; PushDrains.PreparedIsCalm gives a layout that has all of it.
- PushPrograms.CallIsInlining: one level of calls, as the interpreter has; a called body is one piece, so that a jump inside it is covered by PushLaws.ControlFlow only; PUT does not lie inside the words run, and notifier writes spare them.
- PushRuntime.Fifo.TickFifo: requires that no wrapped bound check lets an access outside RAM through.
- IoQueue.RequestsAreConserved: the two threads are atomic steps on a value, not methods on an object, because every interleaving of them is the point; worker shutdown is not modelled; a request's packet contents and results are one opaque value; try_lock may fail at any time.
- StringOps.StringUnit.Scas: paging off and no device map.
- StringOps.StringUnit.Cmps: paging off and no device map.
- StringOps.StringUnit.Movs: paging off and no device map; an element that straddles the end of RAM touches three host bytes behind it, which the window shows.
- StringOps.StringUnit.Stos: paging off and no device map.
- StringScans.CmpsStops: elements inside RAM that do not wrap around 2^32; what a read elsewhere returns is HelperMemory.ReadsBytes.
- StringScans.ScasStops: the same elements.
- HelperMemory.LoadAt: paging off and no device map.
- HelperMemory.StoreAt: paging off and no device map.
- Interrupts.InterruptUnit.DeliverInterrupt: paging off.
- Interrupts.InterruptUnit.Iretd: paging off and no device map.
- Interrupts.NestingKeepsStack: deliveries without an error code, paging off; a delivery with one is covered by Interrupts.DeliveryOutcome only. Work keeps room on its stack for the frames still to come.
- Scheduler.TurnsConnect: guest memory is shared by all threads and what a run leaves there is arbitrary; the words pushed for a deferred call are part of what its run leaves.
- Scheduler.TurnComes: the thread list is fixed and no step ends the system; deferred calls that never stop firing give no step.
- Rc4.Crypt: the key is a value, so a key that overlaps the data is not covered.
