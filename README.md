# deci3dbg breakpoint, step and event engine in Dafny

deci3dbg is a debugger module that connects a host debugger to a PlayStation 3
development target through the target's DECI3 debug agent. This project
models its core engine:

- the breakpoint manager (`is_ok_bpt`, `update_bpts`). Software breakpoints
  patch a trap word into target memory and keep the original word in a shadow
  map (`main_bpts_map`). The single hardware watchpoint is programmed into
  the DABR register.
- `read_memory`. It hides the inserted trap words behind the shadow map.
- single-stepping (`get_branch_target`, `do_step`, `thread_set_step`,
  `remove_thread_bpts`). A step plants transient breakpoints at the
  fall-through address and at the branch target.
- event translation (`ProcessTargetSpecificEvent`, `ProcessTargetEvent`). Each
  notification of the debug agent becomes at most one host debug event. Each
  event is queued in the pending-event deque `eventlist_t`.
- event delivery and resumption (`get_debug_event`, `continue_after_event`).
  Resuming steps past a software breakpoint by lifting it for one resume. It
  steps past a watchpoint hit by disarming the DABR and stepping once.
- the helpers these use: `bswap32`/`bswap64`, the condition-register half
  swap, and `map_address`.

Files:

- `words.dfy`: modules `Wrappers` and `Words`, the machine types.
- `helpers.dfy`: module `Helpers`, the byte swaps and `map_address`.
- `events.dfy`: module `Events`, the host's debug events.
- `remote.dfy`: module `Remote`, the debug agent as a value, and its notifications.
- `shadow.dfy`: module `Shadow`, the shadow map and its invariant.
- `state.dfy`: module `State`, the module's globals as one record.
- `eventlist.dfy`: module `EventQueue`, the event deque as a class.
- `breakpoints.dfy`, `stepping.dfy`, `memory.dfy`, `translator.dfy`,
  `resume.dfy`: each operation as a function of that record, with lemmas
  about it.
- `debugger.dfy`: module `Deci3`, whose class `Debugger` holds the globals of
  `debug.cpp` as mutable fields. Each operation there is a method proved equal
  to its specification function: `ensures State() == Spec(old(State()), ...)`.
  The loops of `update_bpts`, `read_memory`, `remove_thread_bpts` and
  `ProcessTargetEvent` are `while` loops with invariants.

The debug agent is modelled as a value. It holds target memory as one independent word per address,
the set of inserted breakpoints, the DABR value, a running flag, and a log of
every resume, which records the breakpoints and DABR value the target ran with.
Each SDK call the engine makes is a function on this value. The central
invariant `Inv` has two parts:

- every inserted breakpoint over a word that is not itself the trap has that
  word in the shadow map;
- while the watchpoint is set, the DABR holds its address or'ed with its
  access bits.

Behaviours of the code worth knowing, all modelled as written:

- The record walk of `ProcessTargetEvent` subtracts each record's size from
  the remaining length. It does not skip or validate records.
- The watchpoint branch of `update_bpts` checks no alignment. Only
  `is_ok_bpt` refuses a misaligned watchpoint, so an add the host passes
  without asking `is_ok_bpt` arms the DABR at any address
  (`Breakpoints.WatchAddWhenFree` has no alignment premise).
- Continuing from a software breakpoint does not single-step: the
  breakpoint is lifted for one resume and put back. Nothing is planted, so
  the next trap anywhere is reported as STEP
  (`Resume.NextTrapAfterContinueIsStep`).
- Most SDK results are ignored. The few that are checked turn a failure into
  an ordinary value (pc, LR or CTR of BADADDR, a thread state of -1), which
  the engine then uses as if it were real (see "## Left out").
- `continue_after_event` re-inserts the breakpoint at the event address
  whenever `continue_from_bp` is set, not only when this call lifted it. See
  "## Findings". `Resume.ContinueAfterEvent` and `Deci3.Debugger.ContinueAfterEvent`
  with `fixed` false model the code as written.
  `Resume.ContinueAfterEventFixed` and the method with `fixed` true model the
  corrected behaviour.

## Model

| member | source | states |
|---|---|---|
| Words.Add32 | debug.cpp:2047 | the sum of an address and an offset is the plain sum when it fits in 32 bits, and the sum less 2^32 when it carries out |
| Words.NextWordWraps | debug.cpp:2047 | `ea + 4` at the last word of the address space, 0xFFFFFFFC, wraps to 0 |
| Remote.Agent.ReadWord | debug.cpp:2547 | SNPS3ProcessGetMemory of one word: an inserted breakpoint reads as the trap |
| Remote.Agent.HasBp | debug.cpp:1543-1565 | addr_has_bp |
| Remote.Agent.SetBreakPoint | debug.cpp:2557 | SNPS3SetBreakPoint |
| Remote.Agent.ClearBreakPoint | debug.cpp:2683 | SNPS3ClearBreakPoint |
| Remote.Agent.SetDabr | debug.cpp:2602 | SNPS3SetDABR |
| Remote.Agent.Stop | debug.cpp:2600 | SNPS3ProcessStop |
| Remote.Agent.Continue | debug.cpp:1845 | SNPS3ProcessContinue: the target runs with the breakpoints and DABR it has now |
| Helpers.Bswap32 | debug.cpp:410-416 | bswap32: the four bytes in reverse order (Helpers.Bswap32Bytes, Helpers.Bswap32Lanes); it undoes itself (Helpers.Bswap32Involution) |
| Helpers.Bswap64 | debug.cpp:418-428 | bswap64: the eight bytes in reverse order (Helpers.Bswap64Bytes, Helpers.Bswap64Lanes); it undoes itself (Helpers.Bswap64Involution) |
| Helpers.Bswap32Lanes | debug.cpp:410-416 | bswap32 yields the four bytes of its argument in reverse order |
| Helpers.Bswap64Lanes | debug.cpp:418-428 | bswap64 yields the eight bytes of its argument in reverse order |
| Helpers.Bswap32Bytes | debug.cpp:410-416 | byte k of bswap32(x) is byte 3-k of x |
| Helpers.Bswap64Bytes | debug.cpp:418-428 | byte k of bswap64(x) is byte 7-k of x |
| Helpers.Bswap32Involution | debug.cpp:410-416 | swapping twice gives back the 32-bit value |
| Helpers.Bswap64Involution | debug.cpp:418-428 | swapping twice gives back the 64-bit value |
| Helpers.CrHalfSwap | debug.cpp:2248-2251 | the condition register's 32-bit halves trade places (a rotation by 32) |
| Helpers.CrHalfSwapInvolution | debug.cpp:2248-2251 | the half swap undoes itself |
| Helpers.MapAddress | debug.cpp:2744-2761 | with no registers the answer is BADADDR; with registers it is the register value exactly when 0x10200 < value < 2^32, and any answer other than BADADDR is such a value |
| Shadow.ShadowOf | debug.cpp:2399 | `main_bpts_map[ea]`: the recorded word, ZERO when there is no entry |
| Shadow.Patch | debug.cpp:2545-2561 | read the word, record it in the shadow unless it is the trap, and insert the breakpoint. Its effect is stated by Shadow.PatchEffect |
| Shadow.MaskedRead | debug.cpp:2395-2401 | a trap word reads as its shadow entry (ZERO when there is none); under the shadow invariant every word that is not the program's own trap reads as the program's word |
| Shadow.PatchEffect | debug.cpp:2545-2556 | patching hands back the word read and inserts the breakpoint; the shadow records the program's word unless the address was already trapped or holds the trap; the invariant and every correct entry survive |
| Shadow.UnpatchKeepsInv | debug.cpp:1983-1986 | clearing breakpoints together with their shadow entries keeps the shadow invariant |
| Breakpoints.IsOkBpt | debug.cpp:2424-2511 | is_ok_bpt's classification. Its cases are stated by Breakpoints.IsOkBptCases and Breakpoints.MisalignedWatchRefused |
| Breakpoints.ResumeUnlessStopped | debug.cpp:2606-2607 | the target is resumed after the DABR is reprogrammed unless the thread was stopped |
| Breakpoints.AddWatch | debug.cpp:2593-2665 | the write and read/write branches of the add loop: arm the one DABR slot when it is free, otherwise BPT_TOO_MANY. Stated by Breakpoints.WatchAddWhenFree, Breakpoints.WatchAddWhileSet and Breakpoints.AddWatchKeepsInv |
| Breakpoints.AddOne | debug.cpp:2532-2665 | one entry of the add loop. Stated by Breakpoints.FailedEntrySkipped, Breakpoints.SoftAdd, Breakpoints.FeasibleAddApplied, Breakpoints.AddKeepsInv and Breakpoints.AddOneCounted |
| Breakpoints.DelOne | debug.cpp:2668-2732 | one entry of the delete loop, always counted. Stated by Breakpoints.SoftDelete, Breakpoints.WatchDelete and Breakpoints.DelKeepsInv |
| Breakpoints.FoldAdds | debug.cpp:2532-2666 | the add loop over the entries in order. Stated by Breakpoints.FoldAddsStep, Breakpoints.FoldAddsKeepsInv and Breakpoints.AddCount |
| Breakpoints.FoldDels | debug.cpp:2668-2732 | the delete loop over the entries in order. Stated by Breakpoints.FoldDelsStep, Breakpoints.FoldDelsKeepsInv and Breakpoints.DelCount |
| Breakpoints.UpdateBpts | debug.cpp:2514-2740 | update_bpts: the adds, then the deletes, and the count returned. Stated by Breakpoints.UpdateBptsCount and Deci3.Debugger.UpdateBpts |
| Breakpoints.IsOkBptCases | debug.cpp:2424-2511 | software: OK; execute and other types: BAD_TYPE; write and read/write: BAD_ALIGN unless 8-aligned, then TOO_MANY when the watchpoint is set and OK otherwise; the length is never consulted |
| Breakpoints.MisalignedWatchRefused | debug.cpp:2424-2511 | a misaligned watchpoint is refused whatever the slot holds |
| Breakpoints.FailedEntrySkipped | debug.cpp:2534-2538 | an add entry that arrives with an error code is skipped and left untouched |
| Breakpoints.SoftAdd | debug.cpp:2543-2590 | a software or execute add patches the address, records the word read (as shadow unless it is the trap), returns it as orgbytes, registers the address and is counted; the watchpoint is untouched |
| Breakpoints.WatchAddWhenFree | debug.cpp:2593-2665 | with the slot free, a write watch arms the DABR with bits 6 and a read/write watch with bits 7; the slot records the address and kind; software breakpoints are untouched |
| Breakpoints.WatchAddWhileSet | debug.cpp:2620-2623 | with the slot taken, the add fails with TOO_MANY and nothing changes |
| Breakpoints.WatchDelete | debug.cpp:2705-2735 | deleting a watchpoint frees the slot, zeroes its address and programs the address with bits 4; it is counted as OK |
| Breakpoints.WatchDeleteThenAdd | debug.cpp:2593-2735 | after a watchpoint delete, a new watchpoint add succeeds |
| Breakpoints.SoftDelete | debug.cpp:2677-2703 | a software delete clears the breakpoint, forgets the address and its shadow entry, clears orgbytes, and the address reads as the program's word again |
| Breakpoints.SoftBreakpointRoundTrip | debug.cpp:2543-2703 | while a software breakpoint is set its address reads as the trap from the agent and as the original word through the shadow; deleting it restores the original word |
| Breakpoints.FeasibleAddApplied | debug.cpp:2424-2665 | an add that is_ok_bpt accepts on the current slot is applied and counted |
| Breakpoints.AddWatchKeepsInv | debug.cpp:2593-2665 | arming the watchpoint keeps both invariants |
| Breakpoints.AddKeepsInv | debug.cpp:2532-2665 | every add entry keeps both invariants |
| Breakpoints.DelKeepsInv | debug.cpp:2668-2736 | every delete entry keeps both invariants |
| Breakpoints.FoldAddsKeepsInv | debug.cpp:2532-2665 | the add loop keeps both invariants |
| Breakpoints.FoldDelsKeepsInv | debug.cpp:2668-2736 | the delete loop keeps both invariants |
| Breakpoints.FoldAddsStep | debug.cpp:2532-2665 | the add loop over one more entry is the loop so far followed by that entry |
| Breakpoints.FoldDelsStep | debug.cpp:2668-2736 | the delete loop over one more entry is the loop so far followed by that entry |
| Breakpoints.AddCount | debug.cpp:2532-2665 | a counted add came in OK, is of a known type and ends OK; every entry keeps its address and type |
| Breakpoints.DelCount | debug.cpp:2668-2674 | every delete is counted and written back with code OK |
| Breakpoints.UpdateBptsCount | debug.cpp:2514-2740 | update_bpts returns the number of applied adds plus ndel, writes back every entry, and keeps both invariants |
| Stepping.StepPlan | debug.cpp:2045-2121 | where do_step puts the fall-through and the resolved address. Its cases are stated by Stepping.StepOverCall, Stepping.JumpFollowed, Stepping.ConditionalPlantsBoth, Stepping.NonBranchPlantsNext and Stepping.RegisterBranchTarget |
| Stepping.Armed | debug.cpp:2123-2141 | the addresses the arming code of do_step plants on |
| Stepping.Arm | debug.cpp:2125-2130 | plant one step breakpoint. Stated by Stepping.ArmEffect |
| Stepping.ArmPlan | debug.cpp:2123-2141 | plant the step breakpoints of a plan, the fall-through one first. Stated by Stepping.ArmPlanEffect |
| Stepping.DoStep | debug.cpp:2028-2144 | do_step. Stated by Stepping.DoStepEffect and Stepping.StepMasked |
| Stepping.ThreadSetStep | debug.cpp:2148-2164 | thread_set_step. Stated by Stepping.ThreadSetStepCases |
| Stepping.RemoveThreadBpts | debug.cpp:1977-2000 | remove_thread_bpts. Stated by Stepping.RemoveThreadBptsEffect and Stepping.StepThenRemove |
| Stepping.GetBranchTarget | debug.cpp:2002-2026 | LR when the operands name the link register, CTR when they name the count register, otherwise the given operand's address or BADADDR; the link flag is set exactly when the auxiliary flag byte is 0x08 |
| Stepping.StepOverCall | debug.cpp:2045-2140 | stepping over a call plants only the return address; stepping into it plants the return address and the call target |
| Stepping.JumpFollowed | debug.cpp:2054-2091 | an unconditional branch without link plants only its target, on step into and step over alike |
| Stepping.ConditionalPlantsBoth | debug.cpp:2064-2081 | a conditional branch without link plants both the fall-through and its target, read from operand 3 (bc) or operand 2 (the others) |
| Stepping.NonBranchPlantsNext | debug.cpp:2047-2049 | any other instruction, or one the decoder rejects, plants only pc+4 |
| Stepping.FailedPcReadPlantsAtThree | debug.cpp:2034-2049 | when the pc read fails, so the pc is BADADDR, and nothing decodes there, do_step plants only the wrapped fall-through address 3 |
| Stepping.RegisterBranchTarget | debug.cpp:2093-2101 | bcctr and bclr on step into resolve to LR or CTR as the operands say, otherwise to BADADDR |
| Stepping.ArmEffect | debug.cpp:2123-2131 | planting one step breakpoint inserts it, lists it as a step breakpoint, keeps the invariants and changes nothing else |
| Stepping.DoStepEffect | debug.cpp:2028-2144 | do_step inserts exactly the planned breakpoints, lists them as step breakpoints, changes shadow entries only at planted addresses, keeps every correct entry and both invariants, and touches nothing else |
| Stepping.ArmPlanEffect | debug.cpp:2123-2141 | the same, for any pair of candidate addresses |
| Stepping.StepMasked | debug.cpp:2123-2141 | after a step, every address still reads as the program's word through the shadow |
| Stepping.ThreadSetStepCases | debug.cpp:2148-2164 | thread_set_step steps and sets single-stepping exactly on STEP_INTO or STEP_OVER, returns 1 then, and otherwise returns 0 with nothing changed |
| Stepping.RemoveThreadBptsEffect | debug.cpp:1977-2000 | every listed address that is not a user breakpoint is cleared with its shadow entry; user breakpoints and unlisted addresses are untouched; both invariants hold |
| Stepping.StepThenRemove | debug.cpp:1977-2144 | a step followed by removal of its step breakpoints restores the breakpoint set, except for planted user breakpoints, and leaves the other shadow entries as they were |
| Memory.MaskOne | debug.cpp:2397-2400 | one word of the masking loop: a word other than the trap passes through; a trap word reads as its shadow entry, and the lookup inserts ZERO when there is none. Its properties are stated by Memory.MaskOneEffect |
| Memory.MaskOneEffect | debug.cpp:2397-2400 | one masked word is the masked read of its address; the shadow keeps every entry, gains only a zero entry at a trap word, and always holds an entry for a trap word afterwards |
| Memory.MaskLoop | debug.cpp:2395-2401 | the masking loop over n words, in order. Its properties are stated by Memory.MaskLoopEffect |
| Memory.MaskLoopEffect | debug.cpp:2395-2401 | by induction over the words: n words are handed out, word k is the masked read of ea+4k against the shadow as it was before the loop, the shadow only gains zero entries at trap words, and every trap word read has an entry afterwards |
| Memory.ReadMemory | debug.cpp:2389-2404 | read_memory of n words: word k is the masked read of ea+4k against the shadow map as it was before the call; the map keeps its entries, gains only zero entries at trap words, and gains one at every trap word read that had none |
| Memory.ReadKeepsShadowInv | debug.cpp:2389-2404 | a read keeps the shadow invariant |
| Memory.ReadHidesBreakpoints | debug.cpp:2389-2404 | under the invariant, the read shows the program's own words |
| Memory.ReadTwice | debug.cpp:2389-2404 | a second read of the same words gives the same words |
| Translator.ThreadOf | debug.cpp:825 | a thread id field byte-swapped and stored in the 32-bit thread id. Stated by Translator.Field64RoundTrip |
| Translator.PcOf | debug.cpp:826 | a program counter field byte-swapped and stored in a 32-bit address. Stated by Translator.Field64RoundTrip |
| Translator.ModuleKey | debug.cpp:1137 | the module id field byte-swapped as the key of `modules`. Stated by Translator.ModuleKeyRoundTrip |
| Translator.Decode | debug.cpp:794-1160 | the field decoding of each notification kind. Stated by Translator.TrapRoundTrip, Translator.ExitRoundTrip and Translator.LoadRoundTrip |
| Translator.ModuleName | debug.cpp:1129 | the displayed module name "<elf name> - <name>" |
| Translator.ExcInfo | debug.cpp:864-1023 | the text of each exception event. Stated by Translator.ExceptionEvent |
| Translator.Translate | debug.cpp:779-1164 | ProcessTargetSpecificEvent. Stated by Translator.Dedup and Translator.ActEffect |
| Translator.Act | debug.cpp:794-1160 | what each decoded notification does. Stated by Translator.ActEffect, Translator.TrapWhileStepping, Translator.TrapIsBreakpoint, Translator.DabrHitIsHardwareBreakpoint and Translator.ExceptionEvent |
| Translator.StepCompleted | debug.cpp:819-847 | a trap while single-stepping. Stated by Translator.TrapWhileStepping |
| Translator.OnLoad | debug.cpp:1110-1141 | a module load. Stated by Translator.LoadThenUnload |
| Translator.OnUnload | debug.cpp:1143-1160 | a module unload. Stated by Translator.LoadThenUnload and Translator.UnloadUnknown |
| Translator.ApplyRecord | debug.cpp:1176-1186 | one record of the buffer, translated and then kept in the scratch slot. Stated by Translator.SecondTrapDropped |
| Translator.ApplyRecords | debug.cpp:1168-1191 | ProcessTargetEvent's walk over the records. Stated by Translator.ApplyRecordsEffect and Translator.OtherRecordsSkipped |
| Translator.SizeSumSplit | debug.cpp:1170-1189 | the remaining length at record i is record i's size plus the sizes after it, and 0 after the last record |
| Translator.Field64RoundTrip | debug.cpp:831-833 | a 64-bit thread or pc field the agent swapped arrives as the low 32 bits of the value sent |
| Translator.ModuleKeyRoundTrip | debug.cpp:1137 | a module id the agent swapped arrives as the value sent |
| Translator.TrapRoundTrip | debug.cpp:810-862 | trap and watchpoint notifications decode to the thread and pc that were sent, truncated to 32 bits |
| Translator.ExitRoundTrip | debug.cpp:794-808 | the exit status is the low 32 bits of the value sent, read as a signed 32-bit number |
| Translator.LoadRoundTrip | debug.cpp:1110-1160 | module load and unload notifications decode to the thread and module id that were sent |
| Translator.Dedup | debug.cpp:816-817 | a trap right after a trap, and a watchpoint hit right after one, are dropped with no effect |
| Translator.TrapWhileStepping | debug.cpp:819-847 | a trap while stepping reports STEP at the trap's thread and pc and removes the step breakpoints but not the user ones; continue_from_bp is cleared before singlestep is; the invariants hold |
| Translator.TrapIsBreakpoint | debug.cpp:848-861 | any other trap reports a BREAKPOINT with no hardware address and changes nothing else |
| Translator.DabrHitIsHardwareBreakpoint | debug.cpp:1025-1045 | a watchpoint hit reports a BREAKPOINT whose hardware address is the watched address |
| Translator.ExceptionEvent | debug.cpp:864-1023 | an exception reports EXCEPTION with no event address, the pc as the exception address, code 0, and can-continue only for the floating-point one |
| Translator.LoadThenUnload | debug.cpp:1110-1160 | a load then an unload of a module reports the "elf - name" name twice and leaves the module table without that module |
| Translator.UnloadUnknown | debug.cpp:1143-1160 | unloading an unknown module reports an empty name and leaves the table as it was |
| Translator.EmitEffect | debug.cpp:805 | queuing one event changes only the queue and keeps the invariants |
| Translator.ActEffect | debug.cpp:779-1164 | each notification appends at most one event, for the current process and handled, and keeps the process id, the scratch slot, the user breakpoints and both invariants |
| Translator.ApplyRecordsEffect | debug.cpp:1168-1191 | a buffer only appends events, at most one per record, each for the current process and handled; both invariants hold |
| Translator.SecondTrapDropped | debug.cpp:1180-1183 | the scratch slot keeps each record's notification, so a second trap in one buffer is dropped |
| Translator.OtherRecordsSkipped | debug.cpp:1176-1185 | records that are not target-specific have no effect |
| Resume.Drain | debug.cpp:1745-1789 | n calls of get_debug_event in a row. Stated by Resume.DrainInOrder |
| Resume.BeforeResume | debug.cpp:1819-1843 | the part of continue_after_event before the resume. Stated by Resume.BeforeResumeFlag and Resume.ContinueFromWatchpoint |
| Resume.Lift | debug.cpp:1821-1826 | lift the breakpoint at the event address. Stated by Resume.LiftEffect |
| Resume.StepOffWatch | debug.cpp:1828-1842 | disarm the DABR and plant step breakpoints. Stated by Resume.StepOffWatchEffect |
| Resume.AfterResume | debug.cpp:1847-1864 | the part after the resume. Stated by Resume.AfterResumeEffect |
| Resume.ContinueWith | debug.cpp:1793-1870 | continue_after_event, as written or corrected. Stated by Resume.ContinueTrivialCases, Resume.ContinuePlain and Resume.AgreeWithoutLeftover |
| Resume.ContinueAfterEvent | debug.cpp:1793-1870 | continue_after_event as written. Stated by Resume.ContinueFromSoftBreakpoint, Resume.AsWrittenKeepsInv and Resume.LeftoverRearm |
| Resume.ContinueAfterEventFixed | debug.cpp:1793-1870 | continue_after_event with the re-arm corrected. Stated by Resume.FixedKeepsInv |
| Resume.GetDebugEvent | debug.cpp:1745-1789 | without a buffer: NO_EVENT and nothing changes; otherwise the scratch slot is cleared and the oldest event is handed out and removed; ONE_EVENT when it was the last, MANY_EVENTS otherwise, NO_EVENT on an empty queue; an attach event ends the attaching phase |
| Resume.DrainInOrder | debug.cpp:1745-1789 | repeated get_debug_event calls hand the queued events out in order |
| Resume.ContinueTrivialCases | debug.cpp:1795-1814 | no event: false; events still pending: true with nothing changed; an event that does not resume: only the scratch slot is cleared |
| Resume.ContinuePlain | debug.cpp:1814-1845 | after an attach, suspend or step event the target resumes once as it stands |
| Resume.ContinueFromSoftBreakpoint | debug.cpp:1819-1852 | from a software breakpoint, the target resumes once with that breakpoint lifted; it is then put back and continue_from_bp is set |
| Resume.NextTrapAfterContinueIsStep | debug.cpp:819-847 | after that continue, the next trap is reported as STEP and consumes continue_from_bp |
| Resume.ContinueFromWatchpoint | debug.cpp:1828-1863 | from a watchpoint hit, the target resumes with the DABR disarmed and step breakpoints planted, then again with the DABR re-armed and the newly planted non-user breakpoints removed |
| Resume.ShadowInvAgentSteps | debug.cpp:1830-1862 | reprogramming the DABR or resuming keeps the shadow invariant |
| Resume.LiftEffect | debug.cpp:1821-1826 | lifting a breakpoint clears it at the event address if one is there and sets continue_from_bp; the shadow entry stays |
| Resume.StepOffWatchEffect | debug.cpp:1828-1842 | disarming the DABR and stepping inserts the planned breakpoints and keeps the shadow invariant |
| Resume.AfterResumeEffect | debug.cpp:1847-1864 | the second half re-inserts the lifted breakpoint; on a watchpoint hit it also re-arms the DABR, removes the planted step breakpoints and resumes |
| Resume.AgreeWithoutLeftover | debug.cpp:1819-1852 | the code as written and the corrected one agree unless continue_from_bp is left set at an address without a breakpoint |
| Resume.BeforeResumeFlag | debug.cpp:1819-1843 | after the first half, continue_from_bp is set exactly when it was set or a breakpoint was lifted |
| Resume.FixedKeepsInv | debug.cpp:1793-1870 | the corrected continue_after_event keeps both invariants for every event |
| Resume.BreakpointContinueKeepsInv | debug.cpp:1819-1864 | the same, for a BREAKPOINT event |
| Resume.AsWrittenKeepsInv | debug.cpp:1793-1870 | the code as written keeps both invariants whenever no continue_from_bp is left over |
| Resume.LeftoverRearm | debug.cpp:1819-1864 | a watchpoint hit at a word with no breakpoint, while continue_from_bp is left over, makes the code as written leave a trap there with no shadow entry, breaking the shadow invariant, and read_memory then shows zeros there; the corrected version inserts no breakpoint |
| Resume.StrayBreakpoint | debug.cpp:1849-1852 | a state that satisfies the invariant, with a write watchpoint set and continue_from_bp left over, from which continuing after a watchpoint hit at 0x1000 breaks the invariant and masks the word as zeros; the corrected version leaves 0x1000 free |
| EventQueue.EventList.constructor | debmod.h:41-66 | a new deque is empty |
| EventQueue.EventList.Enqueue | debmod.h:47-53 | IN_BACK appends; any other position pushes at the front |
| EventQueue.EventList.Retrieve | debmod.h:56-64 | an empty deque returns false and leaves the event as it was; otherwise the head is handed out and removed |
| EventQueue.Replay | debmod.h:47-64 | the queue and the events handed out after a sequence of calls, as a function. EventQueue.Run ties it to the two methods |
| EventQueue.Run | debmod.h:47-64 | running a sequence of enqueue and retrieve calls on one list leaves the queue, and hands out the events, exactly as EventQueue.Replay computes them; the FIFO lemmas about Replay therefore hold of the two methods |
| EventQueue.FifoWhenOnlyBack | debmod.h:47-64 | when every insertion is IN_BACK, the events handed out followed by the rest are the initial queue followed by the pushed events |
| EventQueue.DeliveredInOrder | debmod.h:47-64 | then the i-th event handed out is the i-th one queued |
| EventQueue.FrontInsertIsNext | debmod.h:49-50 | a front insertion is the next event handed out |
| Deci3.Debugger.constructor | debug.cpp:72-89 | the globals start with no breakpoints, no watchpoint, no modules, all flags clear and an empty queue |
| Deci3.Debugger.AddWatch | debug.cpp:2593-2665 | arms or refuses the watchpoint slot exactly as Breakpoints.AddWatch |
| Deci3.Debugger.AddCode | debug.cpp:2543-2590 | patches and registers the address, returning the word read as orgbytes |
| Deci3.Debugger.AddEntry | debug.cpp:2534-2665 | one add entry, as Breakpoints.AddOne |
| Deci3.Debugger.DelCode | debug.cpp:2677-2703 | clears the breakpoint and forgets the address and its shadow entry |
| Deci3.Debugger.DelWatch | debug.cpp:2705-2735 | frees the slot and programs the address with bits 4, resuming unless stopped |
| Deci3.Debugger.DelEntry | debug.cpp:2670-2736 | one delete entry, as Breakpoints.DelOne |
| Deci3.Debugger.AddLoop | debug.cpp:2532-2665 | the add loop over the array in place; later entries untouched |
| Deci3.Debugger.DelLoop | debug.cpp:2668-2736 | the delete loop over the array in place; other entries untouched |
| Deci3.Debugger.UpdateBpts | debug.cpp:2514-2740 | the array and globals end as Breakpoints.UpdateBpts says, and the count is returned |
| Deci3.Debugger.FetchWords | debug.cpp:2393 | fills the buffer with the words the agent reads |
| Deci3.Debugger.MaskTraps | debug.cpp:2395-2401 | the in-place masking loop leaves the buffer and the shadow map as Memory.MaskLoop computes them from the words read and the old shadow |
| Deci3.Debugger.ReadMemory | debug.cpp:2389-2404 | read_memory fills the buffer with the masked words and returns the byte size |
| Deci3.Debugger.Arm | debug.cpp:2123-2131 | plants one step breakpoint, as Stepping.Arm |
| Deci3.Debugger.DoStep | debug.cpp:2028-2144 | do_step, as Stepping.DoStep |
| Deci3.Debugger.ThreadSetStep | debug.cpp:2148-2164 | thread_set_step, as Stepping.ThreadSetStep |
| Deci3.Debugger.RemoveThreadBpts | debug.cpp:1977-2000 | the loop over the set, one address at a time, as Stepping.RemoveThreadBpts |
| Deci3.Debugger.StepCompleted | debug.cpp:819-847 | the step-completion branch of the trap case |
| Deci3.Debugger.Report | debug.cpp:805 | queues one event at the back |
| Deci3.Debugger.OnTrap | debug.cpp:810-862 | the trap case |
| Deci3.Debugger.OnLoad | debug.cpp:1110-1141 | the module load case |
| Deci3.Debugger.OnUnload | debug.cpp:1143-1160 | the module unload case |
| Deci3.Debugger.Act | debug.cpp:786-1164 | the dispatch over decoded notifications |
| Deci3.Debugger.ProcessTargetSpecificEvent | debug.cpp:779-1164 | ProcessTargetSpecificEvent, as Translator.Translate |
| Deci3.Debugger.ProcessTargetEvent | debug.cpp:1168-1191 | the record walk, as Translator.ApplyRecords |
| Deci3.Debugger.GetDebugEvent | debug.cpp:1745-1789 | get_debug_event, as Resume.GetDebugEvent; without an event the caller's buffer is kept |
| Deci3.Debugger.Lift | debug.cpp:1821-1826 | lifts the breakpoint at the event address |
| Deci3.Debugger.StepOffWatch | debug.cpp:1828-1842 | disarms the DABR and steps |
| Deci3.Debugger.AfterResume | debug.cpp:1847-1864 | the second half after resuming |
| Deci3.Debugger.ContinueFromBreakpoint | debug.cpp:1819-1864 | resuming from a BREAKPOINT event; with `fixed` false the lifted breakpoint is put back whenever continue_from_bp is set (as written), with `fixed` true only when this call lifted it |
| Deci3.Debugger.ContinueAfterEvent | debug.cpp:1793-1870 | continue_after_event, as Resume.ContinueWith: as written when `fixed` is false, corrected when it is true |

## Left out

- Connection, target discovery, process start/attach/detach/exit, thread and module enumeration, register read/write (apart from the condition-register swap), write_memory and the host's plugin glue are outside this engine.
- The SDK calls are not modelled as I/O. Their results become parameters: the thread view (pc, decoded instruction, LR, CTR) for do_step, the module-information lookup for module loads, and the stopped flag for update_bpts.
- SDK failures are not modelled as a separate outcome. The calls that are checked turn a failure into a value:
  - read_pc_register, read_lr_register and read_ctr_register return BADADDR when the register read fails (debug.cpp:2173-2177, 2188-2192, 2203-2207);
  - get_thread_state returns -1 (debug.cpp:1414-1418), which update_bpts takes as "not stopped", so it resumes the target (debug.cpp:2606, 2642, 2727);
  - remove_thread_bpts logs a failed clear and goes on (debug.cpp:1988-1991);
  - Kick repeats SNPS3Kick for as long as it succeeds (debug.cpp:769-774).
- The model still reaches these failure values, because `ThreadView`'s pc, LR and CTR are unconstrained and `stopped` may be false. A pc of BADADDR makes do_step plant its breakpoint at `Add32(BADADDR, 4)`, which is 3 (`Stepping.FailedPcReadPlantsAtThree`).
- Ignored memory reads: the memory reads of update_bpts (debug.cpp:2547, 2571), read_memory (debug.cpp:2393) and do_step (debug.cpp:2125, 2135) ignore the SDK result. A failed read would leave the word variable stale or uninitialised, and that value would then be recorded as the shadow entry and returned as orgbytes. The model assumes these reads succeed and does not capture this.
- Address width: `ea_t` is taken to be 32 bits, as the `%08X` printing of addresses suggests (debug.cpp:2119, 2670), so BADADDR is 0xFFFFFFFF and `ea + 4` wraps modulo 2^32 (`Words.NextWordWraps`). debmod.h:141-147 notes that the address size differs between builds. With a 64-bit `ea_t`, BADADDR would be 2^64 - 1, `ea + 4` would not wrap at the end of the 32-bit space, and the truncations of pc and thread fields into `ea_t` (Low32) would keep the high half.
- The host's instruction decoder shows up only as the decoded instruction it returns. The disassembly text and mnemonic that do_step logs are left out.
- Kick() is modelled as a no-op. Notifications arrive only through explicit ProcessTargetEvent calls. Threading between the callback and the host is not modelled.
- Deci3.Debugger.GetDebugEvent: the retry loop of get_debug_event is written without the loop. `retrieve` fails only on an empty queue, and the loop then exits, so it runs once.
- Deci3.Debugger.ProcessTargetEvent: requires a well-formed buffer, in which every record size is positive and the sizes sum to the buffer length. With a zero size the code loops forever. With an overshooting size its unsigned remaining length wraps around.
- Memory.ReadMemory: reads whole 4-byte words. A size that is not a multiple of 4, or an unaligned start, is not modelled.
- Remote.Agent: memory is one independent 4-byte word per address, so words at overlapping addresses share no bytes. is_ok_bpt accepts a software breakpoint at any address (debug.cpp:2428-2431). A trap planted at an address that is not a multiple of 4 overwrites bytes of the neighbouring words, and the model does not show this: reads of those neighbours are unaffected.
- Module names are not truncated to MAXSTR, and unload names are not truncated to the size of `info`.
- Thread-specific breakpoints: the agent is modelled with a single breakpoint set. The thread argument of the set and clear calls is ignored.
- The target's 64-bit thread ids are stored into the host's 32-bit field. This truncation is modelled by Low32. NO_THREAD is a constructor, not a number.
- Logging (debug_printf, msg) and the sleep warning of do_step have no effect and are left out.

## Findings

| source | as written | input that shows it | evidently intended | confidence | as-written member | corrected member |
|---|---|---|---|---|---|---|
| debug.cpp:1849-1852 | continuing from a BREAKPOINT event re-inserts a breakpoint at the event address whenever `continue_from_bp` is set. This includes a flag left over from an earlier continue when this call lifted nothing | continue from a software breakpoint; a watchpoint hit at word 0x1000, which has no breakpoint, is reported before any trap; continuing from that hit inserts a trap at 0x1000 with no shadow entry, and read_memory then shows zeros there | re-insert only the breakpoint this call lifted | not executed | Resume.ContinueAfterEvent, Resume.LeftoverRearm, Resume.StrayBreakpoint | Resume.ContinueAfterEventFixed, Resume.FixedKeepsInv |
