# Strongtalk back end: a verified model

Strongtalk compiles Smalltalk methods to machine code, describes that code for the debugger, keeps it in a
heap of its own and links sends through inline caches that are code themselves. This project models these
parts in Dafny, in the form the virtual machine gives them (arrays and fields changed in place, linked
indices, code written and patched byte by byte), and proves what they are for.

## Parts

**Register mapping** (`Machine`, `Locations`, `MappingTable`, `Conformance`, `MappingSteps`, `Temporaries`,
`PseudoRegisterMapping`, `Frames`, `MoveTasks`, `MappingGroups`, `MapConformance`, `Merging`). A machine with
registers, frame slots and a push stack runs `movl`, `pushl` and `popl`. A mapping says where the values of
pseudo registers are; operations on it emit code. The main results are about that code: spilling, loading,
saving, moving and making a mapping injective keep every value, on every machine state; at a merge point the
code over the push stack, or the parallel moves of the resolver with cycles of any length, bring every value to
every place the target wants. The frame that caller and prologue build is modelled too, so that the location of
an argument is known to hold it. Reference counts and the two free lists, threaded through one array, stay exact
throughout.

**Labels** (`Displacements`, `LabelChains`, `Assembly`, `LabelStates`, `Assembler`, `JumpElimination`).
Unresolved uses of a label form a list inside the operand fields of the emitted code. The lists stay acyclic,
disjoint and complete while they are appended to one another, shortened and resolved; every surviving use
decodes, from the bytes, to where its label leads. With elimination of jumps to the next instruction and of
jumps to jumps, the code executes for every sequence of choices the same instructions as the program with all
its jumps.

**Debugging information** (`ProgramCounterTable`, `DebugEncoding`, `DebugRecorder`, `DebugReader`, `DebugLists`,
`DebugRoundTrip`, `DebugLinks`). A tree of scopes with the names in them is written as bytes and two tables,
with indices of three widths, names that change with the position in the code, and a second attempt with a
bigger header when a distance does not fit. Reading gives back all visible scopes, in preorder, in every field,
and from each the scopes it refers to, which come before it. The table from code positions to byte codes changes
exactly from the given position on, and the record that the search finds in the finished table is the one that
the table means.

**Code heap** (`ChunkMap`, `ChunkList`, `FreeLists`, `ChunkSteps`, `Combining`, `Allocating`, `Compacting`,
`Extents`, `ZoneHeap`). Chunks tile the heap between two sentinels, a byte map shows them, and free lists hold
exactly the free ones, through allocation, deallocation, lazy and eager combining and compaction. In bytes of
memory: what is in use is aligned, within the heap and given out once, and allocation fails if and only if no
free place is large enough. From any block the map leads to the start of its chunk.

**Inline caches** (`PicCode`, `PicIteration`, `PicIterator`, `PicEntries`, `PicExecution`, `InlineCaches`,
`CacheRuns`, `SendCaches`). The code of a polymorphic cache is generated in two layouts, parsed back entry by
entry, patched in place, and run instruction by instruction: it dispatches every receiver to the entry of its
class. Growing, replacing and cleaning up keep one good entry for each class through every run, however the
lookup changes, and after a cleanup the cache agrees with the lookup until that changes again.

`Basics` and `Division` hold what several parts share.

## How a property is stated

A method that changes state is proved against a function or a relation on values (the table of a mapping, the
symbolic program behind the code, the list of chunks, the entries of a cache), and lemmas about these say what
the source promises. `Preserves` quantifies over all machine states; `Leads`, `Run` and `RunStub` execute code.
The recorder promises its bytes with respect to every later state of its tables, so that no table entry written
afterwards can change the meaning of what is already there.

## Where the code does not do what it is meant to do

The code is modelled as it is. These properties fail, and the model says exactly when:

- Taking back a jump that ends the code leaves a label that was bound right behind it pointing past the new
  end (`JumpElimination.LabelLeftBehind`). `Bind` states from the state before the call where the end will be
  (`EndAfterBind`), and that the labels behind it are left and no others: binding leaves no label behind if and
  only if none is bound beyond that end.
- The short forms of `jmp` and `jcc` are never emitted: the distance is tested after the length of the
  instruction has been taken off a number that is never positive (assembler/Assembler.cpp:954 and 987). By
  `LabelAssembler.Assembler.BoundBefore` the test always fails; `Jmp` and `Jcc` take 5 and 6 bytes in every case.
- A temporary copy of a pseudo register that is on the stack and shares its register is not given the value
  (`RegisterMapping.TemporaryLost`), except when no register is free and the one that is spilled happens to be
  that register, or to be known to hold the same value (`TemporaryCopy`, `CopyHasValue`).
- The reader skips no list of arguments, so with arguments a scope's temporaries are wrong
  (`DebugLists.ArgumentRead`), unless the names are the same (`DebugLists.TemporariesRight`), and the expression
  stack is looked for one list too early (`DebugLists.StackStart`).
- The mark behind the dependents is the index of the last one but is used as a length, so the last class is
  never checked (`DebugRoundTrip.LastDependentLeftOut`, `DebugRoundTrip.RecordAndRead`).
- Each field of a record of the position table holds 16 bits: positions, scopes and byte codes survive exactly
  below 65536 (`ProgramCounterTable.RecordsExact`), and records can be out of order (`RecordsOutOfOrder`,
  `RecordsKeepOrder`). One record alone is returned for any position (`ProgramCounterTable.LoneRecordFound`).
- An index in two bytes comes back right exactly if it is below 32768; from there on it comes back negative, and
  from 65536 on other bits are lost, too (`DebugEncoding.HalfReads`). The byte code of a sender is kept in 16 bits
  with a sign (`DebugReader.ShortReads`).
- Cleaning up an inline cache that is linked to one compiled method drops it when the lookup finds an
  interpreted method, whereas entries of polymorphic caches are converted (`SendCaches.LoneMethodGivenUp`).

In three places the model follows what the code is meant to do: a scope descriptor keeps the scopes, the offset
and the position it is constructed with (code/ScopeDescriptor.cpp:34-47); after a polymorphic cache has been
cleaned up the result is tested, not the old cache (code/CompiledInlineCache.cpp:497); and the three outcomes of
that cleanup are those documented at code/PolymorphicInlineCache.hpp:145-149.

## Model

| member | source | states |
|---|---|---|
| LocationPool.Locations.constructor | strongtalk/src/cpp/main/vm/code/Locations.cpp:26-76 | both free lists are built complete and in order inside the one array; nothing is in use |
| LocationPool.Locations.ExtendTo | strongtalk/src/cpp/main/vm/code/Locations.cpp:79-88 | the stack area reaches exactly the wanted size, the new locations are free, no use count changes |
| LocationPool.Locations.AllocateRegister | strongtalk/src/cpp/main/vm/code/Locations.cpp:91-101 | hands out the front of the register list, counted once; both lists stay complete and acyclic |
| LocationPool.Locations.AllocateStackTmp | strongtalk/src/cpp/main/vm/code/Locations.cpp:104-116 | hands out the front of the stack list, or grows by one location, counted once |
| LocationPool.Locations.Allocate | strongtalk/src/cpp/main/vm/code/Locations.cpp:119-150 | takes one given free location out of the middle of its list; exactly that one leaves the list |
| LocationPool.Locations.Release | strongtalk/src/cpp/main/vm/code/Locations.cpp:161-178 | one use less; the last use puts the location in front of the free list of its own kind |
| LocationPool.ThreadsUnlink | strongtalk/src/cpp/main/vm/code/Locations.cpp:125-147 | redirecting the predecessor link removes one element and leaves the list threaded, repetition-free and leak-free |
| LocationPool.Locations.NofTotalUses | strongtalk/src/cpp/main/vm/code/Locations.cpp:188-193 | the loop over negative entries is the sum of all use counts |
| LocationPool.Locations.NofFreeRegisters | strongtalk/src/cpp/main/vm/code/Locations.cpp:196-204 | walking the links counts exactly the free registers |
| LocationPool.Locations.FreeRegisterMask | strongtalk/src/cpp/main/vm/code/Locations.cpp:207-214 | the mask holds the numbers of exactly the registers without uses |
| LocationPool.FreeNumber | strongtalk/src/cpp/main/vm/code/Locations.cpp:207-248 | a number is in the mask if and only if it names a register without uses: number and location are inverse |
| RegisterMapping.PseudoRegisterMapping.Index | strongtalk/src/cpp/main/vm/code/PseudoRegisterMapping.cpp:41-56 | with or without a good cache, the slot found is the one the linear search finds, or -1 |
| RegisterMapping.PseudoRegisterMapping.Kill | strongtalk/src/cpp/main/vm/code/PseudoRegisterMapping.cpp:295-311 | exactly the slot of the pseudo register is cleared and its locations are given up |
| RegisterMapping.PseudoRegisterMapping.SpillRegister | strongtalk/src/cpp/main/vm/code/PseudoRegisterMapping.cpp:120-141 | every pseudo register keeps its value under the emitted code, and nothing is left in the register |
| RegisterMapping.PseudoRegisterMapping.EnsureOneFreeRegister | strongtalk/src/cpp/main/vm/code/PseudoRegisterMapping.cpp:107-117 | a register becomes free unless none can be spilled, which is reported; every value is kept |
| RegisterMapping.PseudoRegisterMapping.Def | strongtalk/src/cpp/main/vm/code/PseudoRegisterMapping.cpp:375-392 | the pseudo register ends in one fresh register and nowhere else; all others keep their values; it fails exactly if, without the old value, no register is free or can be spilled, and then only the old value is gone |
| RegisterMapping.PseudoRegisterMapping.Use | strongtalk/src/cpp/main/vm/code/PseudoRegisterMapping.cpp:395-458 | the register returned holds the pseudo register, whose value and all others are kept |
| RegisterMapping.PseudoRegisterMapping.Move | strongtalk/src/cpp/main/vm/code/PseudoRegisterMapping.cpp:461-474 | the destination shares the locations of the source, so it has its value; others are kept |
| RegisterMapping.PseudoRegisterMapping.SaveRegisters | strongtalk/src/cpp/main/vm/code/PseudoRegisterMapping.cpp:497-505 | every pseudo register but the exception is on the stack afterwards, with its value |
| RegisterMapping.PseudoRegisterMapping.KillRegisters | strongtalk/src/cpp/main/vm/code/PseudoRegisterMapping.cpp:508-522 | registers are given up by all but the exception; what is on the stack stays |
| MappingSteps.SaveThenKill | strongtalk/src/cpp/main/vm/code/PseudoRegisterMapping.cpp:497-522 | saving and then killing registers leaves every other pseudo register on the stack, in no register, and none lost |
| Frames.LocationsInFrame | strongtalk/src/cpp/main/vm/code/Locations.cpp:280-299 | after the caller has pushed the arguments in order, and the call and the prologue the return address and the frame pointer, the operand of argument k addresses the word pushed for it, and that of temporary i the i-th word below the saved frame pointer |
| Frames.UseArgument | strongtalk/src/cpp/main/vm/code/PseudoRegisterMapping.cpp:268-274 | mapping a pseudo register to an argument and then using it leaves, on every such frame, the value of that argument in the register |
| Frames.UseTemporary | strongtalk/src/cpp/main/vm/code/PseudoRegisterMapping.cpp:277-283 | the same for a temporary of the frame |
| Frames.RegistersAre | strongtalk/src/cpp/main/vm/code/Locations.cpp:258-277 | the locations of registers are eax, ebx, ecx, edx, edi and esi, in this order |
| Frames.NonLocalReturnAre | strongtalk/src/cpp/main/vm/assembler/x86_mapping.hpp:118-120 | a non-local return has its result in eax, the home frame in edi and its identity in esi |
| RegisterMapping.PseudoRegisterMapping.AcquireNonLocalReturnRegisters | strongtalk/src/cpp/main/vm/code/PseudoRegisterMapping.cpp:541-547 | the three registers of a non-local return are reserved, each used once and by nothing else |
| RegisterMapping.PseudoRegisterMapping.TemporaryCopy | strongtalk/src/cpp/main/vm/code/PseudoRegisterMapping.cpp:1136-1173 | it fails exactly if no register can be had; the temporary has the value of the pseudo register if and only if the register is not shared, or there is no stack location, or no register is free and the one to be spilled is known to hold the value; stated for the code alone as well |
| RegisterMapping.TemporaryLost | strongtalk/src/cpp/main/vm/code/PseudoRegisterMapping.cpp:1136-1173 | a run after which a temporary does not have the value: two pseudo registers share a register and a stack location, and one of them is copied |
| Temporaries.SharedOutcome | strongtalk/src/cpp/main/vm/code/PseudoRegisterMapping.cpp:1136-1173 | what a temporary holds that takes the place of a shared register: the value just when the register spilled for it is linked to that of the pseudo register |
| Temporaries.DeliversLinked | strongtalk/src/cpp/main/vm/code/PseudoRegisterMapping.cpp:1136-1173 | a register that the code leaves alone ends with the value if and only if the mapping says, through pseudo registers with several locations, that it had it from the start |
| RegisterMapping.PseudoRegisterMapping.SpillablePseudoRegisterIndex | strongtalk/src/cpp/main/vm/code/PseudoRegisterMapping.cpp:89-105 | the slot to spill is an unlocked one in a least-used register, the highest of these, or there is none |
| RegisterMapping.PseudoRegisterMapping.MakeInjective | strongtalk/src/cpp/main/vm/code/PseudoRegisterMapping.cpp:559-616 | no location is shared afterwards, every value is kept, only moves are emitted; reports failure if no register can be freed |
| RegisterMapping.PseudoRegisterMapping.IsInjective | strongtalk/src/cpp/main/vm/code/PseudoRegisterMapping.cpp:236-247 | true if and only if no two pseudo registers share a location |
| MappingTable.PreservesValues | strongtalk/src/cpp/main/vm/code/PseudoRegisterMapping.cpp:120-141 | what keeping values means on machine states: no fault, stack unchanged, every location of a pseudo register holds what any of its old ones held |
| MappingTable.PreservesThrough | strongtalk/src/cpp/main/vm/code/PseudoRegisterMapping.cpp:559-616 | two stretches of value-keeping code keep values together |
| MappingTable.ConsistentSet | strongtalk/src/cpp/main/vm/code/PseudoRegisterMapping.cpp:1032-1086 | replacing one entry, with counts following, keeps: each pseudo register once, each count equal to its holders, reservations alone |
| RegisterMapping.PseudoRegisterMapping.OldMakeConformant | strongtalk/src/cpp/main/vm/code/PseudoRegisterMapping.cpp:619-726 | after the emitted code every pseudo register is exactly where the target has it, with its value; the push stack is balanced |
| RegisterMapping.PseudoRegisterMapping.Strip | strongtalk/src/cpp/main/vm/code/PseudoRegisterMapping.cpp:918-927 | exactly the pseudo registers unknown to the target are dropped |
| Conformance.ResolveSlot | strongtalk/src/cpp/main/vm/code/PseudoRegisterMapping.cpp:668-722 | one step of the second pass: the pop or moves bring one value home while every value already placed or still pushed survives |
| Conformance.StartResolving | strongtalk/src/cpp/main/vm/code/PseudoRegisterMapping.cpp:619-665 | after the first pass every value is where it conforms or on the push stack, and wanted locations are free |
| MapConformanceResolver.MapConformance.TargetIncludes | strongtalk/src/cpp/main/vm/code/MapConformance.cpp:115-121 | true if and only if some linked task moves to the place |
| MapConformanceResolver.MapConformance.InParentChain | strongtalk/src/cpp/main/vm/code/MapConformance.cpp:106-112 | true if and only if the task is on the way up the recursion |
| MapConformanceResolver.MapConformance.IsDependent | strongtalk/src/cpp/main/vm/code/MapConformance.cpp:124-176 | true just when the task must come first; a cycle is broken by saving its root in the spare register, and no value is lost |
| MapConformanceResolver.MapConformance.ProcessTask | strongtalk/src/cpp/main/vm/code/MapConformance.cpp:179-197 | the recursion ends, the task is processed and every value still needed survives |
| MapConformanceResolver.MapConformance.GenerateCode | strongtalk/src/cpp/main/vm/code/MapConformance.cpp:200-261 | every destination of the group receives the value; nothing else is written but the spare register |
| MapConformanceResolver.MapConformance.Simplify | strongtalk/src/cpp/main/vm/code/MapConformance.cpp:360-372 | tasks with one source end on one list, reduced tasks on none |
| MapConformanceResolver.MapConformance.Generate | strongtalk/src/cpp/main/vm/code/MapConformance.cpp:292-305 | the emitted moves are the simultaneous assignment: every destination gets the start value of its source, cycles of any length included; all else but the spare register is kept and the push stack is balanced |
| MoveTasks.CycleAtRoot | strongtalk/src/cpp/main/vm/code/MapConformance.cpp:141-171 | a dependency can close a cycle only at the root of the recursion |
| MoveTasks.BreakTask | strongtalk/src/cpp/main/vm/code/MapConformance.cpp:144-170 | moving the root value to the spare register keeps all progress |
| MoveTasks.FinishTask | strongtalk/src/cpp/main/vm/code/MapConformance.cpp:193-196 | processing a task that threatens no other keeps all progress |
| MappingGroups.GroupsSolvable | strongtalk/src/cpp/main/vm/code/MapConformance.cpp:360-372 | linking turns resolvable tasks into groups with disjoint targets, each threatened by at most one other |
| MappingGroups.SingleSourcesResolvable | strongtalk/src/cpp/main/vm/code/MapConformance.cpp:124-261 | with one source per task, disjoint destinations and a spare register the resolver always applies |
| Merging.NewMakeConformant | strongtalk/src/cpp/main/vm/code/PseudoRegisterMapping.cpp:808-897 | the listed moves, resolved with a register free in both mappings, give every pseudo register its value in every place the target has it |
| Merging.ResolvedPreserves | strongtalk/src/cpp/main/vm/code/PseudoRegisterMapping.cpp:808-897 | a simultaneous assignment of the listed tasks keeps every value, also of entries that do not move |
| Merging.MakeConformant | strongtalk/src/cpp/main/vm/code/PseudoRegisterMapping.cpp:900-933 | both versions: after the emitted code every pseudo register known to both has its value in every location of the target |
| Displacements.DisplaceFields | strongtalk/src/cpp/main/vm/assembler/Displacement.cpp:76-87 | packing position, kind and information into the operand field loses nothing |
| Displacements.DecodeOperand | strongtalk/src/cpp/main/vm/assembler/Assembler.cpp:762-812 | the operand computed for a use decodes back to its target position, kind and information |
| LabelAssembler.Assembler.EmitDisp | strongtalk/src/cpp/main/vm/assembler/Assembler.cpp:894-908 | a forward use becomes the head of its label chain in the code; chains stay acyclic, disjoint and exactly the unresolved uses |
| LabelAssembler.Assembler.Call | strongtalk/src/cpp/main/vm/assembler/Assembler.cpp:894-908 | a call is added to the program; operand right or chained |
| LabelAssembler.Assembler.Jmp | strongtalk/src/cpp/main/vm/assembler/Assembler.cpp:948-979 | a jump is added; if pending uses lead here they join its chain and may go where it goes |
| LabelAssembler.Assembler.Jcc | strongtalk/src/cpp/main/vm/assembler/Assembler.cpp:982-1009 | a conditional jump is added; operand right or chained |
| LabelAssembler.Assembler.IcInfo | strongtalk/src/cpp/main/vm/assembler/Assembler.cpp:1021-1036 | inline cache information is added; operand right or chained |
| LabelAssembler.Assembler.LinkTo | strongtalk/src/cpp/main/vm/assembler/Assembler.cpp:820-839 | one chain is appended to another by patching the last operand field |
| LabelAssembler.Assembler.SettleAll | strongtalk/src/cpp/main/vm/assembler/Assembler.cpp:762-807 | every use on a chain decodes to the given position and the chain is empty |
| LabelAssembler.Assembler.Bind | strongtalk/src/cpp/main/vm/assembler/Assembler.cpp:842-884 | where the code ends afterwards is known before: one jump less for each that ends the code, heads the chain of the label and starts where the one before it on the chain ends; an earlier label loses its place if and only if it lies behind that end |
| LabelAssembler.Assembler.BoundBefore | strongtalk/src/cpp/main/vm/assembler/Assembler.cpp:949-961 | a bound label is never ahead of the code, so the distance to it less the length of the jump never fits into an unsigned byte |
| LabelStates.RetractedTrail | strongtalk/src/cpp/main/vm/assembler/Assembler.cpp:864-879 | taking one jump back leaves the others of the row to be taken back |
| LabelAssembler.Assembler.Finalize | strongtalk/src/cpp/main/vm/assembler/Assembler.cpp:32-36 | nothing is pending any more |
| Assembly.LinkedStructured | strongtalk/src/cpp/main/vm/assembler/Assembler.cpp:820-839 | appending keeps chains acyclic, disjoint and complete |
| Assembly.SettledStructured | strongtalk/src/cpp/main/vm/assembler/Assembler.cpp:767-808 | resolving one use keeps all other chains and uses right |
| Assembly.RetractedStructured | strongtalk/src/cpp/main/vm/assembler/Assembler.cpp:864-876 | taking back the last jump keeps all resolved uses right |
| Assembly.TakenOverWaiting | strongtalk/src/cpp/main/vm/assembler/Assembler.cpp:964-977 | uses retargeted through a jump still lead, in the program, where their labels are bound |
| JumpElimination.UseArrives | strongtalk/src/cpp/main/vm/assembler/Assembler.cpp:762-884 | every surviving use decodes, from the bytes of the code, to an instruction that its label leads to by jumps alone |
| JumpElimination.SameRuns | strongtalk/src/cpp/main/vm/assembler/Assembler.cpp:848-881 | for every sequence of choices the code executes exactly the instructions the program with all its jumps would |
| JumpElimination.EmittedCodeRuns | strongtalk/src/cpp/main/vm/assembler/Assembler.cpp:32-36 | the same for a finished assembler, whose buffer holds the code |
| JumpElimination.ErasedLeads | strongtalk/src/cpp/main/vm/assembler/Assembler.cpp:864-879 | an erased jump would have led by jumps alone to the instruction that is now in its place |
| JumpElimination.LabelLeftBehind | strongtalk/src/cpp/main/vm/assembler/Assembler.cpp:864-879 | a run after which a bound label points behind the end of the code |
| ChunkMap.HeaderReads | strongtalk/src/cpp/main/vm/code/ZoneHeap.hpp:206-244 | from either end of a chunk its size and state can be read back, in the short and the long format |
| ChunkMap.MarkSize | strongtalk/src/cpp/main/vm/code/ZoneHeap.cpp:34-75 | afterwards both ends carry size and state, every inner byte of a used chunk leads back towards its start, and no byte outside the chunk has changed |
| ChunkList.FindStart | strongtalk/src/cpp/main/vm/code/ZoneHeap.cpp:78-109 | from any block of a used chunk the search ends, and ends at the start of that chunk |
| ChunkList.TrailStep | strongtalk/src/cpp/main/vm/code/ZoneHeap.cpp:84-88 | one step down the distance bytes stays inside the chunk, also in the tail of a long one where all distances are capped |
| FreeLists.RemovedOk | strongtalk/src/cpp/main/vm/code/ZoneHeap.cpp:264-268 | taking a chunk off its list leaves exactly the other free chunks listed, each once and by its size |
| FreeLists.AddedOk | strongtalk/src/cpp/main/vm/code/ZoneHeap.cpp:271-283 | listing a chunk that became free leaves exactly the free chunks listed |
| ChunkSteps.JoinedOk | strongtalk/src/cpp/main/vm/code/ZoneHeap.cpp:408-449 | joining a run of free chunks keeps the tiling, the used chunks and the number of used blocks |
| Combining.ProgressStep | strongtalk/src/cpp/main/vm/code/ZoneHeap.cpp:452-471 | joining one more run leaves every chunk dealt with alone between used neighbours, and the biggest size still exists |
| Combining.AllMerged | strongtalk/src/cpp/main/vm/code/ZoneHeap.cpp:452-471 | after the pass over the small lists no two free chunks adjoin, given that no two big ones did |
| CodeZone.ZoneHeap.constructor | strongtalk/src/cpp/main/vm/code/ZoneHeap.cpp:178-218 | a valid heap that is one free chunk between two sentinels |
| CodeZone.ZoneHeap.Clear | strongtalk/src/cpp/main/vm/code/ZoneHeap.cpp:221-248 | everything is one free chunk again |
| CodeZone.ZoneHeap.Combine | strongtalk/src/cpp/main/vm/code/ZoneHeap.cpp:408-449 | the maximal run of free chunks around the given one becomes one chunk; the cursor names an element still on the list |
| CodeZone.ZoneHeap.CombineAll | strongtalk/src/cpp/main/vm/code/ZoneHeap.cpp:452-471 | afterwards no two free chunks adjoin; the result is the largest free size but for chunks that were big and untouched; the pass ends |
| CodeZone.ZoneHeap.AllocFromLists | strongtalk/src/cpp/main/vm/code/ZoneHeap.cpp:286-326 | no chunk exactly if no run of free blocks is large enough, with at most one retry; otherwise a chunk in blocks that were free |
| CodeZone.ZoneHeap.Allocate | strongtalk/src/cpp/main/vm/code/ZoneHeap.cpp:329-343 | in bytes: the size is the request rounded up to blocks; it fails if and only if no aligned place within the heap of that size is free of memory in use; otherwise exactly the bytes returned, which were such a place, are in use in addition |
| CodeZone.ZoneHeap.InUseSeparate | strongtalk/src/cpp/main/vm/code/ZoneHeap.hpp:355-360 | memory in use lies within the heap, starts at multiples of the block size, and no two pieces overlap |
| Extents.HasRoomFits | strongtalk/src/cpp/main/vm/code/ZoneHeap.hpp:355-360 | a run of free blocks is there if and only if an aligned place in memory is free of all that is in use |
| CodeZone.ZoneHeap.Deallocate | strongtalk/src/cpp/main/vm/code/ZoneHeap.cpp:346-361 | exactly the bytes from the address on, as many as the chunk has, are no longer in use; used bytes shrink by them, and neighbours are merged as promised |
| CodeZone.ZoneHeap.Compact | strongtalk/src/cpp/main/vm/code/ZoneHeap.cpp:367-405 | the used chunks keep their order, sizes and contents, packed from the start; the address returned is the used bytes from the start of the heap, aligned and within it, and no memory in use is beyond it; nothing is done just when the heap is full |
| CodeZone.ZoneHeap.FindStartOfBlock | strongtalk/src/cpp/main/vm/code/ZoneHeap.cpp:527-537 | from any byte address inside used memory to the address where that was given out |
| CodeZone.ZoneHeap.SizeOfBlock | strongtalk/src/cpp/main/vm/code/ZoneHeap.cpp:540-542 | so many bytes are in use there |
| Allocating.UsedApart | strongtalk/src/cpp/main/vm/code/ZoneHeap.cpp:286-384 | no block belongs to two chunks that are in use |
| Allocating.NoRoom | strongtalk/src/cpp/main/vm/code/ZoneHeap.cpp:286-326 | with free neighbours merged, chunks all smaller than a request mean that no run of free blocks is large enough |
| Compacting.SlidingOn | strongtalk/src/cpp/main/vm/code/ZoneHeap.cpp:385-394 | moving one chunk down keeps what all chunks hold, although source and target may overlap |
| ProgramCounterTable.ProgramCounterDescriptorInfo.Extend | strongtalk/src/cpp/main/vm/code/ProgramCounterDescriptorInfoClass.cpp:18-28 | a larger table with the same entries |
| ProgramCounterTable.ProgramCounterDescriptorInfo.Add | strongtalk/src/cpp/main/vm/code/ProgramCounterDescriptorInfoClass.cpp:31-61 | from the position on the table gives the new place, below it what it gave before; with compression positions stay strictly increasing |
| ProgramCounterTable.ProgramCounterDescriptorInfo.CopyTo | strongtalk/src/cpp/main/vm/code/ProgramCounterDescriptorInfoClass.cpp:73-81 | one record of three 16-bit fields for each entry, in order |
| ProgramCounterTable.RecordsKeepOrder | strongtalk/src/cpp/main/vm/code/ProgramCounterDescriptorInfoClass.cpp:73-81 | the records are in order if and only if from each entry to the next it is at least 64K for every multiple of 64K that is passed |
| ProgramCounterTable.RecordsExact | strongtalk/src/cpp/main/vm/code/ProgramCounterDescriptorInfoClass.cpp:73-81 | position, scope and byte code each survive in all records if and only if they fit into 16 bits in all entries |
| ProgramCounterTable.RecordsOutOfOrder | strongtalk/src/cpp/main/vm/code/ProgramCounterDescriptorInfoClass.cpp:73-81 | two positions are added and copied, and the records are out of order: 65536 wraps around |
| ProgramCounterTable.Containing | strongtalk/src/cpp/main/vm/code/NativeMethod.cpp:542-600 | with several records the last one at or before the offset, or none before the first; a single record whatever the offset |
| ProgramCounterTable.SearchFindsPlace | strongtalk/src/cpp/main/vm/code/NativeMethod.cpp:542-600 | the last entry at or before the offset is the one that the table means |
| ProgramCounterTable.CopyAndFind | strongtalk/src/cpp/main/vm/code/NativeMethod.cpp:542-600 | with several entries the record found is that of the right entry for every offset if the last position fits into 16 bits; otherwise it is wrong for the offset before that position |
| ProgramCounterTable.AddCopyAndFind | strongtalk/src/cpp/main/vm/code/ProgramCounterDescriptorInfoClass.cpp:31-81 | after a position is added, the record found for it and for all offsets behind it shows the new place, for offsets before it the place that the table gave before |
| ProgramCounterTable.LoneRecordFound | strongtalk/src/cpp/main/vm/code/NativeMethod.cpp:551-553 | a run in which a lone record is found for an offset before it |
| DebugReader.ShortReads | strongtalk/src/cpp/main/vm/code/ScopeDescriptor.cpp:65-72 | the byte code of a sender comes back if and only if it fits into 16 bits with a sign |
| DebugEncoding.HalfReads | strongtalk/src/cpp/main/vm/code/NativeMethodScopes.cpp:50-55 | a 16-bit index comes back if and only if it is below 32768 |
| DebugEncoding.HeaderUnpacks | strongtalk/src/cpp/main/vm/code/ScopeDescriptorRecorder.hpp:300-388 | code and all six flags of a scope header can be read back |
| DebugRecorder.InsertIfAbsent | strongtalk/src/cpp/main/vm/memory/Array.cpp:27-42 | the index of the first occurrence; the table grows only when the value is not there |
| DebugRecorder.ScopeDescriptorRecorder.GetValueIndex | strongtalk/src/cpp/main/vm/code/ScopeDescriptorRecorder.cpp:76-81 | an index that means the value in this table and in every later one |
| DebugRecorder.ScopeDescriptorRecorder.GetOopIndex | strongtalk/src/cpp/main/vm/code/ScopeDescriptorRecorder.cpp:84-86 | an index that means the object in this table and in every later one |
| DebugRecorder.ScopeDescriptorRecorder.GenName | strongtalk/src/cpp/main/vm/code/ProgramCounterDescriptorInfoClass.cpp:84-115 | appends the encoding of the name with respect to every later state of the tables |
| DebugRecorder.ScopeDescriptorRecorder.GenAddress | strongtalk/src/cpp/main/vm/code/LogicalAddress.cpp:49-67 | appends the names of one entity with the distances between their positions |
| DebugRecorder.ScopeDescriptorRecorder.GenerateSolid | strongtalk/src/cpp/main/vm/code/ScopeDescriptorNode.cpp:146-154 | appends all elements and a termination byte |
| DebugRecorder.ScopeDescriptorRecorder.GenerateSparse | strongtalk/src/cpp/main/vm/code/ScopeDescriptorNode.cpp:157-167 | appends the elements that are there, each with its index |
| DebugRecorder.ScopeDescriptorRecorder.Generate | strongtalk/src/cpp/main/vm/code/ScopeDescriptorNode.cpp:54-65 | appends a scope up to its names and fixes its offset |
| DebugRecorder.ScopeDescriptorRecorder.FinishScope | strongtalk/src/cpp/main/vm/code/ScopeDescriptorNode.cpp:81-93 | in one pass or two, the scope is written with the header that its length needs |
| DebugRecorder.BigHeaderDone | strongtalk/src/cpp/main/vm/code/ScopeDescriptorRecorder.cpp:247-262 | the second pass writes the same bytes two places further on, and the distance in the big header is right |
| DebugRecorder.ScopeDescriptorRecorder.GenerateBody | strongtalk/src/cpp/main/vm/code/ScopeDescriptorNode.cpp:81-101 | appends the scope and all visible scopes below it in preorder |
| DebugRecorder.ScopeDescriptorRecorder.GenNonInlined | strongtalk/src/cpp/main/vm/code/NonInlinedBlockScopeNode.cpp:11-20 | appends a block that was not inlined, at the offset returned |
| DebugRecorder.ScopeDescriptorRecorder.GenerateAll | strongtalk/src/cpp/main/vm/code/ScopeDescriptorRecorder.cpp:108-125 | the bytes are the visible scopes in preorder, then the other blocks and padding; every scope is at the offset it has been given, every block at the offset returned for it |
| DebugReader.NextRead | strongtalk/src/cpp/main/vm/code/ScopeDescriptorRecorder.cpp:247-262 | the distance to the next scope is read back from either header; one in a big header is never an inline value |
| DebugReader.UnpackValueFromIndex | strongtalk/src/cpp/main/vm/code/NativeMethodScopes.cpp:72-78 | the value that was recorded |
| DebugReader.UnpackOopFromIndex | strongtalk/src/cpp/main/vm/code/NativeMethodScopes.cpp:63-69 | the object that was recorded |
| DebugReader.UnpackName | strongtalk/src/cpp/main/vm/code/NativeMethodScopes.cpp:93-143 | one name as it was recorded, and whether it is the last; nothing at a termination byte |
| DebugReader.UnpackNameDescAt | strongtalk/src/cpp/main/vm/code/NativeMethodScopes.cpp:161-176 | the last name whose position is at or before pc, or the first; reading stops exactly behind the last name |
| DebugReader.NameAtIs | strongtalk/src/cpp/main/vm/code/NativeMethodScopes.cpp:161-176 | which name that is, stated by positions |
| DebugReader.ScopeAt | strongtalk/src/cpp/main/vm/code/NativeMethodScopes.cpp:17-35 | the scope recorded at the offset, in every field, whichever header it has; nothing for a block that was not inlined |
| DebugReader.NonInlinedBlockScopeAt | strongtalk/src/cpp/main/vm/code/NativeMethodScopes.cpp:38-47 | the method of the block recorded at the offset, and how far back the scope of its parent is |
| DebugReader.InlinedScopeAt | strongtalk/src/cpp/main/vm/code/ScopeDescriptor.cpp:34-79 | header, sender, method, context, identity and what depends on the kind, and where the names and the next scope are |
| DebugReader.UnpackKind | strongtalk/src/cpp/main/vm/code/ScopeDescriptor.cpp:496-552 | key and receiver of a method scope, parent of a block, receiver and class of a top-level block |
| DebugReader.GetNext | strongtalk/src/cpp/main/vm/code/NativeMethodScopes.hpp:219-228 | the scope after the given one, and nothing after the last |
| DebugReader.AllScopes | strongtalk/src/cpp/main/vm/code/NativeMethodScopes.hpp:31-32 | the loop over all scopes ends and sees each once, in order |
| DebugRoundTrip.RecordAndRead | strongtalk/src/cpp/main/vm/code/ScopeDescriptorRecorder.cpp:108-139 | for every tree, with its visibility computed and the dependents in the same table, reading back gives the visible scopes in preorder, each with all that was recorded of it, and every block that was not inlined, with its method and leading to the scope of its parent; all needed scopes are among them; the dependents before the end mark are all of them if and only if there are none |
| DebugRoundTrip.RecordAndReadElements | strongtalk/src/cpp/main/vm/code/ScopeDescriptorNode.cpp:54-101 | from the tree to one temporary, context temporary and stack element: for a scope that is not lite and has no arguments each is what the recorded list has at that index, and nothing outside of it; for a lite one nothing |
| DebugRoundTrip.LaidSenders | strongtalk/src/cpp/main/vm/code/ScopeDescriptorNode.cpp:96-101 | the sender offset of a scope is that of the scope it is nested in |
| DebugLinks.RecordAndReadLinks | strongtalk/src/cpp/main/vm/code/ScopeDescriptorNode.cpp:54-101 | for every tree and every scope read back, the sender read is the scope around it and the parent read of an inlined block is the scope recorded as its parent |
| DebugLinks.BlockParent | strongtalk/src/cpp/main/vm/code/ScopeDescriptor.cpp:618-620 | from a block that was not inlined to the scope of its parent |
| DebugLinks.LaidRefersBack | strongtalk/src/cpp/main/vm/code/ScopeDescriptorNode.cpp:96-101 | what the kind of a scope refers to comes before it in the order of recording |
| DebugLinks.ReceiverLeadsBack | strongtalk/src/cpp/main/vm/code/NativeMethodScopes.cpp:120-135 | a block that is a receiver leads to a scope at a lower offset |
| DebugLinks.WithReceivers | strongtalk/src/cpp/main/vm/code/ScopeDescriptor.cpp:496-515 | reading a scope with the scopes that receivers lead to, one after the other, ends at a receiver that is no block |
| DebugRoundTrip.SenderOf | strongtalk/src/cpp/main/vm/code/ScopeDescriptor.cpp:337-339 | the enclosing scope as recorded; the root has none |
| DebugRoundTrip.ParentOf | strongtalk/src/cpp/main/vm/code/ScopeDescriptor.cpp:574-577 | the scope that was recorded as the lexical parent |
| DebugRoundTrip.NothingNeededHidden | strongtalk/src/cpp/main/vm/code/ScopeDescriptorNode.cpp:123-131 | every scope that is needed is visible, with all scopes around it, and nothing is visible without need |
| DebugRoundTrip.VisibleAre | strongtalk/src/cpp/main/vm/code/ScopeDescriptorNode.cpp:123-131 | every scope that is not lite, or is used when lite ones are wanted, is visible; any other just if one within it is |
| DebugLists.Temporary | strongtalk/src/cpp/main/vm/code/ScopeDescriptor.cpp:89-111 | the element of the first recorded list: the temporaries, or the arguments if there are any |
| DebugLists.TemporariesRight | strongtalk/src/cpp/main/vm/code/ScopeDescriptor.cpp:89-111 | temporaries are right exactly if no arguments were recorded, or as many as temporaries and with the same names at pc, up to scopes at the same offset |
| DebugLists.ArgumentRead | strongtalk/src/cpp/main/vm/code/ScopeDescriptor.cpp:89-111 | a scope with an argument whose temporary is read as being where the argument is |
| DebugLists.ContextTemporary | strongtalk/src/cpp/main/vm/code/ScopeDescriptor.cpp:114-143 | the element of the context temporaries, or of the list before if there are arguments |
| DebugLists.ContextTemporariesRight | strongtalk/src/cpp/main/vm/code/ScopeDescriptor.cpp:114-143 | context temporaries are right exactly if there are no arguments, or the list read instead has the same names at pc |
| DebugLists.StackStart | strongtalk/src/cpp/main/vm/code/ScopeDescriptor.cpp:146-162 | the search starts at the list of the expression stack without arguments, and with them at the list before it |
| DebugLists.ExprStackElem | strongtalk/src/cpp/main/vm/code/ScopeDescriptor.cpp:146-174 | what was recorded for the byte code, and nothing if nothing was |
| DebugRecorder.ScopeDescriptorRecorder.GenerateDependencies | strongtalk/src/cpp/main/vm/code/ScopeDescriptorRecorder.cpp:128-139 | every class depended on is in the table once; the end mark is the index of the last |
| DebugRoundTrip.LastDependentLeftOut | strongtalk/src/cpp/main/vm/code/NativeMethodScopes.hpp:156-166 | since the end mark is used as a length, exactly the last class is left out: all are reached if and only if there are none |
| PicCode.DispReads | strongtalk/src/cpp/main/vm/code/PolymorphicInlineCache.cpp:113-126 | a relative address comes back, with 32-bit wrap-around |
| PicIteration.PolymorphicInlineCache.CodeForMethods | strongtalk/src/cpp/main/vm/code/PolymorphicInlineCache.cpp:593-619 | the section of interpreted methods, small integers first |
| PicIteration.PolymorphicInlineCache.CodeForPolymorphicCase | strongtalk/src/cpp/main/vm/code/PolymorphicInlineCache.cpp:622-678 | the code of the contents in the right layout, of exactly the size computed beforehand, targets filled in later included |
| PicIteration.PolymorphicInlineCache.constructor | strongtalk/src/cpp/main/vm/code/PolymorphicInlineCache.cpp:783-792 | a cache whose code is that of its contents |
| PicIteration.PolymorphicInlineCache.Megamorphic | strongtalk/src/cpp/main/vm/code/PolymorphicInlineCache.cpp:795-802 | a cache that keeps the selector only |
| PicIterator.PolymorphicInlineCacheIterator.constructor | strongtalk/src/cpp/main/vm/code/PolymorphicInlineCache.cpp:230-264 | starts at the first entry, in whichever layout; a megamorphic cache has none |
| PicIterator.PolymorphicInlineCacheIterator.ComputeNextState | strongtalk/src/cpp/main/vm/code/PolymorphicInlineCache.cpp:267-278 | recognises from the code which kind of entry comes next |
| PicIterator.PolymorphicInlineCacheIterator.Advance | strongtalk/src/cpp/main/vm/code/PolymorphicInlineCache.cpp:281-303 | from each entry to the next, and to the end after the last |
| PicIterator.PolymorphicInlineCacheIterator.Current | strongtalk/src/cpp/main/vm/code/PolymorphicInlineCache.cpp:377-423 | reads exactly the entry that the code was generated for |
| PicIterator.PolymorphicInlineCacheIterator.SetNativeMethod | strongtalk/src/cpp/main/vm/code/PolymorphicInlineCache.cpp:432-436 | patching the code replaces the target of this entry and no other |
| PicIterator.PolymorphicInlineCacheIterator.SetMethodOop | strongtalk/src/cpp/main/vm/code/PolymorphicInlineCache.cpp:439-441 | patching the code replaces the method of this entry and no other |
| PicExecution.StubRuns | strongtalk/src/cpp/main/vm/code/StubRoutines.cpp:1409-1430 | the stub finds the interpreted method of the receiver class, or none |
| PicExecution.CodeDispatches | strongtalk/src/cpp/main/vm/code/PolymorphicInlineCache.cpp:593-678 | running the code on any receiver leads to the entry of its class, or to the lookup if it has none, in both layouts |
| PicExecution.MegamorphicLooksUp | strongtalk/src/cpp/main/vm/code/PolymorphicInlineCache.cpp:681-692 | the code of a megamorphic cache goes to the lookup for its selector |
| SendCaches.CompiledInlineCache.MegamorphicSends | strongtalk/src/cpp/main/vm/code/PolymorphicInlineCache.cpp:681-692 | a megamorphic send looks up its own selector, for every receiver |
| PicEntries.ContentsEntries | strongtalk/src/cpp/main/vm/code/PolymorphicInlineCache.cpp:201-226 | collecting entries loses none and invents none, and keeps small integers apart |
| InlineCaches.Replace | strongtalk/src/cpp/main/vm/code/PolymorphicInlineCache.cpp:450-494 | the class has the new compiled method, all other entries are as before, whether patched or built anew; the selector is kept |
| InlineCaches.Cleanup | strongtalk/src/cpp/main/vm/code/PolymorphicInlineCache.cpp:497-577 | every class has what the lookup finds now, or nothing; what is left is a cache, one method, or nothing |
| InlineCaches.RefreshedMeans | strongtalk/src/cpp/main/vm/code/PolymorphicInlineCache.cpp:497-577 | a class keeps an entry if and only if the lookup still finds something, and then exactly that |
| SendCaches.CompiledInlineCache.Allocate | strongtalk/src/cpp/main/vm/code/PolymorphicInlineCache.cpp:713-780 | a cache with the new and all old entries, for the selector of the send; at four it turns megamorphic, or is given up |
| SendCaches.CompiledInlineCache.NormalLookup | strongtalk/src/cpp/main/vm/code/CompiledInlineCache.cpp:84-238 | the class goes where the lookup leads, after compilation if the send is optimized, and all others stay; no class twice, at most four before it is megamorphic; a direct link of a send with a static receiver enters behind the class test; where receivers go then is stated by running the code, megamorphic or not |
| SendCaches.CompiledInlineCache.Sends | strongtalk/src/cpp/main/vm/code/CompiledInlineCache.cpp:203-230 | in every state a receiver goes where the entry of its class says, by direct link or through the code of the cache, provided that a static receiver has the class that was verified |
| SendCaches.CompiledInlineCache.Outlives | strongtalk/src/cpp/main/vm/code/CompiledInlineCache.cpp:418-430 | a cache stays valid when the lookup changes |
| CacheRuns.AlwaysOrdered | strongtalk/src/cpp/main/vm/code/PolymorphicInlineCache.cpp:450-577 | through every run of misses, replacements, cleanups, clearings and changes of the lookup: no class twice, at most four, good targets only |
| CacheRuns.CurrentSinceCleanup | strongtalk/src/cpp/main/vm/code/CompiledInlineCache.cpp:418-516 | after a cleanup, through every run until the lookup changes, every cached class goes where the lookup leads |
| CacheRuns.CurrentDispatches | strongtalk/src/cpp/main/vm/code/PolymorphicInlineCache.cpp:593-678 | a cache that is up to date sends cached classes where the lookup leads and all others to the lookup |
| SendCaches.CompiledInlineCache.Replace | strongtalk/src/cpp/main/vm/code/CompiledInlineCache.cpp:372-402 | the class has the new compiled method, all other entries are as before |
| SendCaches.CompiledInlineCache.Cleanup | strongtalk/src/cpp/main/vm/code/CompiledInlineCache.cpp:418-516 | every entry is what the lookup finds now, or gone; a lone compiled method is also given up for an interpreted one |
| SendCaches.LoneMethodGivenUp | strongtalk/src/cpp/main/vm/code/CompiledInlineCache.cpp:465-476 | a run in which a cache linked to one compiled method is emptied although the lookup finds an interpreted one |
| SendCaches.CompiledInlineCache.Clear | strongtalk/src/cpp/main/vm/code/CompiledInlineCache.cpp:405-415 | empty again, flags kept |
| SendCaches.SoundRuns | strongtalk/src/cpp/main/vm/code/PolymorphicInlineCache.cpp:593-678 | whatever has happened to a cache, running its code dispatches on its entries |

## Left out

- RegisterMapping.PseudoRegisterMapping.Use: context locations and constants are left to the code generator and are not loaded here.
- RegisterMapping.PseudoRegisterMapping.SpillRegister: what `PseudoRegisterLocker` guarantees is not modelled; the set of locked pseudo registers is a parameter, and only the chosen entry is tested against it.
- LocationPool.Locations.constructor: at least one register and one temporary, since with none the end marker is written outside its range.
- MapConformanceResolver.MapConformance.Generate: needs a spare register. Without one, cycles are broken on the push stack, with a push count taken from another task than the one that pops (code/MapConformance.cpp:150), and line 209 tests another destination than that of the current task.
- RegisterMapping.PseudoRegisterMapping.Def: running out of registers, which stops the virtual machine, is a result here.
- MoveTasks.BreakTask: moving tasks are values in a sequence with indices as links, not objects with pointers.
- Merging.NewMakeConformant: the moves are emitted into an assembler of their own and appended.
- LabelAssembler.Assembler.Jmp: relocation information, code after `finalize` and the opcodes of ordinary instructions are not modelled; such instructions are plain bytes.
- LabelAssembler.Assembler.Bind: both settings of the flag for eliminating jumps to jumps are modelled, other flags are not.
- Relocation records and moving relocated code: a smaller companion of the label part.
- ProgramCounterTable.ProgramCounterDescriptorInfo.Add: the initial size is positive; with zero the table would never grow.
- DebugRecorder.ScopeDescriptorRecorder.GenName: a location in a context is taken as already converted (code/ScopeDescriptorRecorder.cpp:286-302).
- DebugRecorder.ScopeDescriptorRecorder.GenerateBody: scope nodes are values; their offsets, fields of the nodes in the source, are a map of the recorder. Every node has an identity and refers only to scopes written before it, names in its lists also to itself; the receiver of the root is no block, since a receiver is read while its scope is being read.
- DebugRecorder.InsertIfAbsent: the growth of arrays by doubling is that of a sequence.
- DebugRoundTrip.RecordAndRead: read back if the tables are small enough for 15-bit indices; the layout of the finished record in memory, with word-aligned offsets, is three sequences.
- DebugReader.UnpackName: a name that refers to a scope is read with the offset of that scope; the scopes that a receiver leads to are read by `DebugLinks.WithReceivers`, others by `ScopeAt`.
- DebugLists.ExprStackElem: not for a scope with both arguments and an expression stack; `StackStart` says which list is read there instead, but not what its bytes give when they are taken for indices.
- Walking over all names of a scope with all their positions, for printing only, and `LogicalAddress::physical_address_at`, which nothing calls.
- CodeZone.ZoneHeap.RemoveFromFreeList: free lists are sequences, not rings of pointers through the free blocks, whose contents are therefore not modelled.
- CodeZone.ZoneHeap.Allocate: the totals for statistics are left out, and block sizes need not be powers of two.
- CodeZone.ZoneHeap.Compact: the callback that moves a method is a move of memory, one value for each block; what it does to the method itself is relocation.
- `firstUsed`, `nextUsed` and the heap that replaces another while it grows.
- PicIteration.PolymorphicInlineCache.constructor: the place in the heap of the caches is given; no compiled method and no stub lies in that heap.
- PicExecution.CodeDispatches: the processor is a small interpreter of the instructions that occur; the stub is run as its code describes, not byte by byte.
- SendCaches.CompiledInlineCache.NormalLookup: the lookup before and after the compilation of an optimized send is a parameter; sends that fail and switching inline caching off are left out.
- Super sends, whose lookup never fills a polymorphic cache; freeing the code of a cache that has been replaced; concurrent execution.
- Garbage collection, deoptimization, the recompiler, class lookup, primitives, printing and disassembly.
