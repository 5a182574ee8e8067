# A verified model of Patchy

Patchy rewrites x86-64 code in its own process. It reserves trampoline slots
near a hook, assembles trampoline code with labels and fixups, records pending
source patches in a session, and installs a whole session permanently against a
registry shared by the process. This project models those parts in Dafny and
proves what they promise.

`dafny verify dfyconfig.toml` checks everything.

## What is modelled

Addresses are integers below 2^64 with the code's checked additions kept. Memory
is a map from addresses to bytes, page protection a map from pages to flags.
Code that works in place is a class with the same fields and loops
(`Candidates.CandidateAddresses`, `Trampoline.Trampoline`, `Session.PatchSession`,
`Install.Process`), proved against functions; the theorems are about those.

| module | models |
|---|---|
| `Errors`, `Words`, `Memory` | error values, little-endian integers, byte memory |
| `Machine` | the instructions the crate emits: an encoder, a decoder and a processor that fetches bytes (Intel 64 and IA-32 SDM, volume 2) |
| `Frames`, `Arch`, `CallFrames` | the call-frame generator and what its bytes do around any callee |
| `RelativeJump`, `Candidates` | near jumps, search bounds, the two-sided candidate iterator |
| `Trampoline`, `Simulation` | the assembler, and the proof that its output means what the labelled program means |
| `Patches`, `Session`, `Patch` | pending patches, slot allocation, the preparation operations |
| `PageWalk`, `Protocol`, `ProtocolInvariant`, `ProtocolSafety` | permanent installation as a protocol of interleaving threads |
| `Install` | `install_permanently` and its helpers as written, proved to be one thread of that protocol |
| `EndToEnd` | from `patch_call` to the running hook |

**Calling frames.** A callee is an arbitrary state transformer that keeps RSP, the
non-volatile registers and the caller's stack above its 32-byte home area
(Microsoft x64 calling convention and x64 stack usage). User-supplied machine
code is an arbitrary transformer with the documented restrictions.
`push_preserved_call` restores everything under this contract. `build_call` keeps
XMM0 and XMM1 inside the callee's home area, so for it the exact condition is
proved instead: it restores the XMM registers if and only if the callee leaves
those bytes as they were (`CallFrames.PlainCallRestores`), and for every entry
state a conforming callee breaks it (`CallFrames.HomeAreaContrast`).

**Assembler.** The labelled program has its own semantics, where a jump goes to
the call that binds its label. Built bytes are run by the processor at their
address. Both directions are proved: what the program does the bytes do, and how
the bytes leave the trampoline the program leaves.

**Allocation.** Mapping a page is an oracle that may refuse or place the page
elsewhere; a mapping it grants is disjoint from all live ones. Slots never move,
overlap or change, and existing pages are filled first-fit. Whether a page takes a
request is stated by the page's fields, and every error of a preparation is tied
to its cause. The search
bounds are exact, but one hole was found: for a hook above the last multiple of
the granularity below 2^64, `CandidateAddresses::new` fails with
`AddressOverflow` although a usable base lies below
(`Session.SearchGivesUp`, `Session.SearchGivesUpExample`).

**Installation.** Each call is a thread with phases seal, flush, take the lock,
registry check, validate, protect page by page, validate again, register, copy
patch by patch, flush, restore in reverse, return. A run is any sequence of
starting an install, one operation of any install with any answer of the
operating system, and a write of other code to a byte that is neither installed
nor, after a second validation, about to be. Failed calls change nothing. The
imperative `Install` also logs every operating-system call with its answer, and
its contracts say which calls were made, in which order, and which refusal is
reported.

## Model

| member | source | states |
|---|---|---|
| `Words.WordRoundTrip` | src/arch.rs:66 | the eight pointer bytes written little-endian are read back as the same 64-bit address |
| `Words.I32RoundTrip` | src/relative_jump.rs:37-43 | a signed 32-bit displacement survives its four little-endian two's-complement bytes |
| `Words.WordBytes` | src/arch.rs:66 | the pointer bytes with their weights, least significant first, add up to the address |
| `Words.I32Bytes` | src/relative_jump.rs:25-28 | the four displacement bytes with their weights are the displacement modulo 2^32 |
| `Memory.LoadAfterStore` | src/session.rs:438-448 | bytes copied to an address are the bytes then read there |
| `Machine.DecodeEncode` | src/arch.rs:3-48 | the processor's decoder reads back every instruction the crate emits, whatever bytes follow it |
| `Machine.RunStraight` | src/arch.rs:14-48 | encoded straight-line code anywhere in a region runs as the instructions it encodes, one after another |
| `Frames.RunPushes` | src/arch.rs:16-21 | a run of PUSHes lowers RSP by 8 each, stores every register in its own slot and touches no byte outside the slots |
| `Frames.RunPops` | src/arch.rs:42-47 | the POPs in reverse order load each register from its slot and change nothing else |
| `Frames.RunXmmStores` | src/arch.rs:22-27 | the MOVDQU stores fill consecutive 16-byte slots and touch nothing outside |
| `Frames.RunXmmLoads` | src/arch.rs:36-40 | the MOVDQU loads give each XMM register the 16 bytes of its slot and leave the others |
| `Arch.SaveRegistersEncoding` | src/arch.rs:14-28 | the 44 literal bytes of SAVE_REGISTERS are six PUSHes, SUB RSP and five stores |
| `Arch.LoadRegistersEncoding` | src/arch.rs:34-48 | the 44 literal bytes of LOAD_REGISTERS are five loads, ADD RSP and six POPs |
| `Arch.SmallEncodings` | src/arch.rs:3-13 | the remaining byte constants are the instructions their comments name |
| `Arch.PrologueEncoding` | src/arch.rs:54-63 | for each return type the bytes before the call are exactly the prologue's instructions |
| `Arch.EpilogueEncoding` | src/arch.rs:68-77 | for each return type the bytes after the call are exactly the epilogue's instructions |
| `Arch.PreservedPrologueEncoding` | src/arch.rs:91-112 | the literal bytes of the preserving prologue are seven PUSHes, SUB RSP, 0x88 and six stores above the home area |
| `Arch.PreservedEpilogueEncoding` | src/arch.rs:122-147 | the literal bytes of the preserving epilogue for each return type, including LEA instead of ADD |
| `Arch.BuildCall` | src/arch.rs:50-80 | the appended byte runs are the encoding of prologue, call through the inline pointer, and epilogue |
| `Arch.PushPreservedCall` | src/arch.rs:82-148 | the bytes appended to the buffer are the encoding of prologue, setup, call, handling and epilogue; what was in the buffer stays |
| `CallFrames.RunCallThrough` | src/arch.rs:3 | CALL [RIP+2]; JMP +8; pointer calls the pointer and resumes just past its eight bytes, at any load address |
| `CallFrames.PreservedPrologueRuns` | src/arch.rs:89-112 | after the prologue RSP is 0xC0 lower, every volatile register is on the stack above the home area, and nothing outside the frame is written |
| `CallFrames.PreservedEpilogueRuns` | src/arch.rs:118-148 | from any state with the saved slots intact the epilogue restores RSP and every register but the selected one and leaves flags and memory |
| `CallFrames.PreservedCallRestores` | src/trampoline.rs:152-169 | for every entry state, blocks keeping the documented restrictions and every conforming callee, the frame changes only the selected register, the flags as result handling left them, and memory; the call has RSP congruent to the entry RSP mod 16 |
| `CallFrames.PreservedCallRuns` | src/arch.rs:82-148 | the same on the emitted bytes: the processor runs from the first byte to just past the last, at any load address |
| `CallFrames.CallPrologueRuns` | src/arch.rs:54-63 | after build_call's prologue all volatile registers but the selected one are in disjoint slots of the frame |
| `CallFrames.CallEpilogueRuns` | src/arch.rs:68-77 | the epilogue restores all but XMM0 and XMM1, which become what their slots then hold |
| `CallFrames.PlainCallRestores` | src/arch.rs:50-80 | after a conforming callee RSP, the integer registers and XMM2 to XMM5 are restored for each return type, and all XMM registers exactly if the callee left the home-area bytes that hold XMM0 and XMM1; the call has RSP congruent to the entry RSP mod 16 |
| `CallFrames.PlainCallRuns` | src/arch.rs:50-80 | build_call on the emitted bytes runs from its first byte to just past its last, past the inline pointer, at any load address |
| `CallFrames.HomeAreaContrast` | src/arch.rs:57-65 | for every entry state a conforming callee that uses its home area makes build_call lose an XMM register, while it meets the contract of the preserving frame |
| `RelativeJump.AlignDownIsMultiple` | src/relative_jump.rs:51-53 | align_down is the greatest multiple not above the value |
| `RelativeJump.AlignUpIsLeast` | src/relative_jump.rs:55-62 | align_up is the least multiple not below the value, and overflows only when that is no 64-bit address |
| `RelativeJump.RelativeOffset` | src/relative_jump.rs:37-43 | succeeds iff the difference is a signed 32-bit number, which then leads to the destination; otherwise both addresses are reported |
| `RelativeJump.BuildNearJump` | src/relative_jump.rs:10-31 | each failure in its order; otherwise exactly `size` bytes that decode to a jump from source to destination followed by NOPs |
| `RelativeJump.CandidateBoundsExact` | src/relative_jump.rs:129-151 | the multiples within the bounds are exactly the aligned, reachable bases whose page fits; both errors mean there is none, told apart by alignment overflow |
| `Candidates.CandidatesExact` | src/relative_jump.rs:73-127 | every multiple in [minimum, maximum] is emitted exactly once, nothing else is, in order of distance with ties to the lower address |
| `Candidates.StartFails` | src/relative_jump.rs:80-82 | `new` fails exactly when no 64-bit multiple lies at or above hook and minimum |
| `Candidates.CandidateAddresses.New` | src/relative_jump.rs:74-99 | the cursors stand before the whole sequence of candidates, or AddressOverflow |
| `Candidates.CandidateAddresses.Next` | src/relative_jump.rs:105-126 | takes the head of the pending candidates and leaves the tail; None exactly at the end |
| `Trampoline.AssembledWindows` | src/trampoline.rs:215-223 | after any calls the displacement windows are four bytes, in bounds and disjoint |
| `Trampoline.ResolveExact` | src/trampoline.rs:191-207 | a fixup resolves iff its label exists and is bound, no sum reaches 2^64 and the target is near; each failure has its own error: foreign label, unbound label, overflow, out of range with both addresses, in that order |
| `Trampoline.BuildExact` | src/trampoline.rs:188-213 | build succeeds iff every fixup is resolvable; otherwise it reports, by the fixup's own facts, why the first unresolvable one is not; on success only windows change, each to its displacement |
| `Trampoline.RelocationLaw` | src/trampoline.rs:191-210 | moving a trampoline by delta keeps label displacements and all bytes outside windows and changes each absolute displacement by -delta |
| `Trampoline.PositionIndependent` | src/trampoline.rs:188-213 | without jumps to absolute addresses the built bytes are the same at every address |
| `Trampoline.Trampoline.AddBytes` | src/trampoline.rs:87-90 | appends the bytes to the recorded program; vectors stay those of the program |
| `Trampoline.Trampoline.AddLabel` | src/trampoline.rs:93-97 | a new unbound label numbered by its position |
| `Trampoline.Trampoline.BindLabel` | src/trampoline.rs:100-110 | foreign and bound labels are refused and change nothing; otherwise the label is the current end |
| `Trampoline.Trampoline.AddAbsoluteCall` | src/trampoline.rs:113-120 | appends the call through an inline pointer |
| `Trampoline.Trampoline.AddAbsoluteJump` | src/trampoline.rs:123-129 | appends the jump through an inline pointer |
| `Trampoline.Trampoline.AddRelativeJump` | src/trampoline.rs:132-136 | appends a jump and a fixup for its absolute target |
| `Trampoline.Trampoline.AddJumpTo` | src/trampoline.rs:139-143 | appends a jump and a fixup for its label |
| `Trampoline.Trampoline.AddJumpIf` | src/trampoline.rs:146-150 | appends the conditional opcode and a fixup for its label |
| `Trampoline.Trampoline.AddPreservedCall` | src/trampoline.rs:170-185 | appends the preserving call frame |
| `Trampoline.Trampoline.PushFixup` | src/trampoline.rs:215-223 | four zero bytes and a fixup whose window they are |
| `Trampoline.Trampoline.Build` | src/trampoline.rs:188-213 | the fixup loop computes the linking that BuildExact characterises, and stops with the first error met |
| `Simulation.ConditionEncoding` | src/trampoline.rs:11-43 | each condition's opcode makes the processor test what the condition's documentation says |
| `Simulation.SimulateStep` | src/trampoline.rs:86-185 | each step of the labelled program is a run of the built bytes between the corresponding addresses |
| `Simulation.Simulates` | src/trampoline.rs:86-213 | whatever the labelled program does from any state, for any calls and any address where build succeeds, the built bytes do |
| `Simulation.Reflects` | src/trampoline.rs:86-213 | when the built bytes leave the trampoline, the labelled program leaves at the same address in the same state |
| `Simulation.JumpsNeverStick` | src/trampoline.rs:194-203 | a built program without preserved calls always has a next step: every label it jumps to is bound |
| `Simulation.Equivalence` | src/trampoline.rs:58-213 | from the entry, in both directions: the built bytes can leave the trampoline in a configuration exactly when the labelled program can |
| `Patches.WriteAllExact` | src/session.rs:438-448 | after writing a batch every covered byte is its replacement and no other byte changed |
| `Patches.WriteOrderIrrelevant` | src/session.rs:438-448 | writing a pairwise disjoint batch in any order gives the same memory |
| `Session.SlotsApart` | src/session.rs:119-139 | two slots handed out never share a byte |
| `Session.SlotsAligned` | src/relative_jump.rs:45-49 | with a granularity divisible by 16 every slot address is a multiple of 16 |
| `Session.UsePage` | src/session.rs:135-138 | placing code in a page keeps every earlier slot's bytes, alignment and reachability |
| `Session.AddPage` | src/session.rs:223-229 | adding a fresh page keeps every earlier slot and makes the page's start a slot |
| `Session.OverlapError` | src/session.rs:75-95 | none iff the range is nonempty, does not wrap and is disjoint from every pending patch; an overlap is reported with the address of the first patch that meets the range and the range's own |
| `Session.PatchSession.EnsurePatchDoesNotOverlap` | src/session.rs:70-96 | the loop answers so, and its inner overflow branch is unreachable |
| `Session.SlotRangeExact` | src/relative_jump.rs:45-49 | a slot range starts at the least multiple of 16 not below the used size and ends inside the page; there is none iff that would not fit |
| `Session.PageDecides` | src/session.rs:119-139 | by the page's fields: a page is passed over, takes the code at its least free offset, or fails |
| `Session.TakesAlone` | src/session.rs:126-138 | a page that takes the code is not passed over, does not fail, and takes it at one offset only |
| `Session.FailsAlone` | src/session.rs:123-135 | a page that fails is not passed over and fails with one error |
| `Session.FirstFitForced` | src/session.rs:119-141 | if a page has room at its least free offset, within reach, and the code can be built there, and every earlier page is passed over, then the allocation cannot fail, takes that page, maps nothing and uses the page up to the slot's end |
| `Session.PageIsShared` | src/session.rs:119-139 | right after a slot, a request that fits at the next multiple of 16 of the same page goes there |
| `Session.PatchSession.AllocateTrampoline` | src/session.rs:98-142 | the first page that is not passed over, by its fields, decides; only if all are is a page mapped, the nearest that could be had; exactly the slot's bytes and the used size change; every error has its cause and leaves pages, slots and mappings |
| `Session.PatchSession.AllocatePage` | src/session.rs:144-174 | success takes the nearest base that could be had, all nearer ones having been asked for and refused; each error has its cause |
| `Session.PatchSession.TryAllocatePage` | src/session.rs:176-230 | one page at exactly the candidate, used up to the size, with the code at its start; or a refusal that unmaps, with its reason as last error; or an error that unmaps; the range check on the mapped address never fires |
| `Session.OutOfMemoryMeansRefused` | src/session.rs:161-173 | NoMemoryCave means that every aligned reachable base whose page fits was asked for and refused |
| `Session.AllocationNeverOutOfRange` | src/session.rs:126-134 | an unreachable place is passed over, never reported |
| `Session.SearchGivesUp` | src/relative_jump.rs:80-82 | although a usable base exists the search cannot start exactly for hooks above the last multiple of the granularity |
| `Session.SearchGivesUpExample` | src/relative_jump.rs:80-82 | a concrete hook in the last 64 KiB for which that happens |
| `Patch.PrepareDetour` | src/patch.rs:176-202 | atomic: an error has its cause and leaves session and mappings alone, success appends one pending patch whose replacement decodes to a jump to the slot; the jump cannot fail to build |
| `Patch.NeverOutOfRange` | src/patch.rs:188-189 | no preparation reports its own jump as out of range |
| `Patch.DetourWith` | src/patch.rs:149-174 | size checks in order, else prepare_detour on the source bytes read |
| `Patch.Detour` | src/patch.rs:96-110 | the slot holds the given bytes |
| `Patch.DetourTrampoline` | src/patch.rs:119-137 | the slot holds the trampoline built for the slot's own address |
| `Patch.LinkCallExact` | src/patch.rs:72-81 | linking succeeds iff the end does not wrap and the continuation is reachable, each failure with its error, and then ends in a jump that decodes to the continuation |
| `Patch.PatchCall` | src/patch.rs:34-84 | the slot holds the optional source bytes, the call frame and a jump to address + size; errors leave everything and have their cause |
| `Patch.Overwrite` | src/patch.rs:211-227 | appends exactly the given replacement, or fails as the overlap check says; pages untouched |
| `PageWalk.WalkExact` | src/session.rs:262-270 | the walk from first to last page terminates and adds exactly the multiples between them |
| `PageWalk.SourcePagesExact` | src/session.rs:250-271 | the collected pages are, in ascending order and each once, exactly those sharing a byte with some patch |
| `PageWalk.PageOfByte` | src/session.rs:252-271 | every byte of a patch lies in a collected page |
| `ProtocolInvariant.CheckBatchExact` | src/session.rs:344-371 | against a well-formed registry the check accepts a batch iff it is disjoint from everything installed; otherwise it names the first patch of the batch that is not and the first installed patch it meets; it never reports overflow |
| `ProtocolInvariant.SealedKept` | src/session.rs:390-396 | an install gets past sealing only with every one of its pages made executable, and no page loses that |
| `ProtocolInvariant.StepFrameLock` | src/session.rs:410-474 | the lock changes hands only by being taken when free and dropped by its holder on return |
| `ProtocolInvariant.OthersKept` | src/session.rs:410-474 | a step of one install keeps every fact another install relies on |
| `ProtocolInvariant.RegistryKept` | src/session.rs:427-436 | registering keeps all registered ranges pairwise disjoint, nonempty and non-wrapping |
| `ProtocolInvariant.SelfCopy` | src/session.rs:438-448 | before the k-th copy patches below k hold their replacement and the others what was expected, and each copy replaces exactly the expected bytes |
| `ProtocolInvariant.RunKept` | src/session.rs:387-474 | every step of every install, succeeding or failing, keeps the invariant |
| `ProtocolSafety.EventKept` | src/session.rs:374-387 | so do starting an install and writes by other code to bytes that no install relies on |
| `ProtocolSafety.EventKeepsProtections` | src/session.rs:246-326 | every event keeps: outstanding pages are writable with their initial protection saved, all others have it |
| `ProtocolSafety.Safety` | src/session.rs:387-474 | in every interleaving registered ranges are pairwise disjoint, and whenever the lock is free every page on which no restoring call failed has its initial protection, sessions sharing pages included |
| `ProtocolSafety.CopyIsLicensed` | src/session.rs:427-448 | when a patch is copied its range is registered, it holds the expected bytes, its pages are writable, and all trampoline pages of the install are executable |
| `ProtocolSafety.WritesAreRegistered` | src/session.rs:438-448 | every byte an install changes lies in a registered range of its own batch, also between copies |
| `ProtocolSafety.ThreadPersists` | src/session.rs:387-388 | an install never changes its batch, undoes a commit, or acts after returning |
| `ProtocolSafety.InstalledForever` | src/session.rs:376-379 | once copied, a batch stays registered, its trampoline pages stay executable and its bytes keep their replacements in every continuation |
| `ProtocolSafety.AllOrNothing` | src/session.rs:387-474 | every finished install changed nothing and reports an early error, or registered its batch, replaced exactly the expected bytes and nothing else, and can report only a cache or protection error; every new registry entry belongs to one |
| `ProtocolSafety.StepProgress` | src/session.rs:387-474 | each operation of an unfinished install that is not waiting for the lock brings it closer to its end |
| `ProtocolSafety.LockIsReleased` | src/session.rs:410-474 | whatever the system calls answer, the holder releases the lock after boundedly many of its own steps |
| `Install.Process.EnsurePatchesDoNotOverlapInstalled` | src/session.rs:344-371 | the nested loops compute the registry check, first conflict first |
| `Install.Process.ValidatePatchSources` | src/session.rs:328-342 | stops at the first patch whose source differs and names it |
| `Install.Process.CollectSourcePages` | src/session.rs:249-271 | the walk over all patches collects the specified ordered page set |
| `Install.Process.ProtectPatchSources` | src/session.rs:246-297 | on success the calls made each source page writable in order and recorded its previous protection, all others untouched; if one is refused the pages before it are put back, last first, and an error of that takes precedence |
| `Install.Process.RestorePatchSources` | src/session.rs:299-326 | one call for every saved page, last first, with its old protection, whatever the answers; the first refused one is reported; all protections are back if none was refused |
| `Install.RestoreUndoesProtect` | src/session.rs:299-326 | restoring what protecting recorded gives every page its protection from before |
| `Install.Process.SealPages` | src/session.rs:390-396 | asks for every page in order to be made executable and stops with a mapping error at the first refusal; on success all are executable |
| `Install.Process.FlushPageCaches` | src/session.rs:400-408 | flushes each page's address and length in order and stops at the first refusal, naming the page |
| `Install.Process.CheckAndValidate` | src/session.rs:410-414 | registry check, then first validation, each with its error |
| `Install.Process.ValidateAgain` | src/session.rs:417-423 | second validation after other code may have run; on a difference every protection is put back and a refusal of that takes precedence over the changed source |
| `Install.Process.InstallProtected` | src/session.rs:417-473 | from the second validation on: nothing written and the protections put back, or the whole batch committed, with the calls made in each case |
| `Install.Process.RegisterPatches` | src/session.rs:427-436 | one entry with the pages and the ranges of the batch is appended |
| `Install.Process.CopyPatches` | src/session.rs:438-448 | memory becomes the batch written over it |
| `Install.Process.FlushSourceCaches` | src/session.rs:450-463 | flushes each source's address and length in order and stops at the first refusal, naming it |
| `Install.Process.Commit` | src/session.rs:425-473 | registers, copies, flushes and restores; restoring is attempted for every page also after a refused flush; a refused flush takes precedence over a refused restoring call |
| `Install.Process.InstallPermanently` | src/session.rs:387-474 | the code is one thread of the protocol; nothing or everything is installed, the latter only with every page executable; the system calls made are listed in order for each way it can end; a mapping error iff a page could not be sealed; the meaning of each other error; protections restored; without a refused call it succeeds iff the batch is disjoint from the registry and both validations match |
| `Install.InstallRefused` | src/session.rs:387-474 | success comes from no refused call, and an error other than a conflict or a changed source from a refused one |
| `Install.FinishedRun` | src/session.rs:387-474 | what the protocol theorems say of an install that ran alone |
| `EndToEnd.CallPrepares` | src/patch.rs:34-84 | patch_call leaves the session with the hook's slot and pending patch |
| `EndToEnd.HookStays` | src/session.rs:119-139 | any later preparations in the session leave them in place |
| `EndToEnd.Installs` | src/session.rs:427-448 | writing the session's batch makes the source a NOP-padded jump to T, with the linked code at T in a registered page |
| `EndToEnd.AllocateTwo` | src/session.rs:119-139 | two trampolines in a new session: the second goes behind the first in the same page, without a mapping, whenever it fits there |
| `EndToEnd.TrampolineRuns` | src/patch.rs:53-59 | from T the processor runs the replayed bytes, the call frame and the final jump to address + size, for every state and callee |
| `EndToEnd.HookRuns` | src/patch.rs:24-33 | execution that reaches the hook goes through T and on at address + size, with integer registers as the replayed bytes left them but the selected one, and XMM registers too exactly if the callee left its home area alone |
| `EndToEnd.HookAndInstall` | src/session.rs:374-387 | patch_call, any sequence of later preparations and an install: whenever the install commits, which includes success, the hook is in place and its pages are executable |

## Left out

- The C interface (`patchy-ffi/src/lib.rs`, `include/patchy.h`) and `src/process_module.rs`: shallow single-branch code.
- Error message text, logging and mutex poisoning. `last_error` is kept as the case behind its text.
- The operating system itself: mapping, `make_exec`, `VirtualProtect` and `FlushInstructionCache` are oracles that may fail. Cache coherence is not modelled.
- The meaning of user-supplied bytes, argument setup, result handling and replayed source bytes: arbitrary state transformers that fall through. Nothing says that replayed instructions are position-independent.
- Upper halves of YMM and ZMM registers, exceptions and unwinding, and threads executing a source while it is replaced.
- Labels of another builder that happen to be in range: the code cannot tell them apart.
- The stack does not wrap: the frame theorems take an entry RSP of at least the frame's depth, and PUSH and POP are otherwise modulo 2^64.
- Code fetched by the processor and data memory are separate: a callee or user block cannot rewrite the trampoline that runs it.
- Simulation.Simulates: the trampoline must end below 2^64, as every mapped page does except one that ends exactly there; `build` itself is characterised at every address.
- Simulation.Reflects: relative and absolute jumps to a fixed address must leave the trampoline; jumping into its own code by address is outside the labelled program.
- EndToEnd.HookRuns: the trampoline and the source are two code regions, joined by the jump between them.
- Install.Process.InstallPermanently: other code runs at one point, between the validations; arbitrary interleaving is the subject of the protocol modules, whose threads this method is shown to follow. System calls are made one at a time.
- ProtocolSafety.Safety: pages on which a restoring call failed are excepted, since the code cannot put those back.
- ProtocolSafety.InstalledForever: other code that writes installed bytes is excluded; patch sources are taken to lie outside trampoline pages, which the registry does not track.
- Executable pages of a session that fails to install, and mappings of a dropped session, are unmapped by their destructors: not part of this model.
- A page's mapping is a value in the session's page sequence with its bytes, instead of a mutable buffer shared with the operating system.
- A builder passed to `detour_with` is a function of the address: the same address gives the same result each time it is called.
- Lengths of vectors are unbounded naturals; additions of a length to an address are checked as in the code.
- Session.PatchSession.TryAllocatePage: the refusal for a mapping outside rel32 range is proved unreachable and so has no case of its own.
- ProtocolSafety.AllOrNothing: the interleaved protocol records which pages are executable but not the state of instruction caches; that every page and source is flushed is stated of the calls that `Install.Process.InstallPermanently` makes.
