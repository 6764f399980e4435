# AetherVM: a verified model

AetherVM decodes guest instructions and turns them into executable forms: native host code, a
metadata file that a second interpreter reads, and a threaded chain of slots. This project models the
code that makes those forms and proves that each agrees with a simpler one. It also covers the caches
in front of the handler set and the block tables, the AES sample program, and the stop and step
protocol of the debugger.

| files | what they model |
|---|---|
| HostMachine, NativeAbi, NativeHandler, NativeGenerator, NativeChain | `nativeHandlerAArch64` and `nativeHandlerX64` emit lines of a small assembly language with an interpreter; the opcode is an arbitrary function whose footprint is the used registers; handlers run alone and in chains |
| Words, Division, Operands, OperandArithmetic, OperandMeaning | operand trees as the opcode engine holds them, their evaluators, and the arithmetic these compute |
| Metadata, Flatten | the flat node array, its evaluator, and the conversion that fills it |
| Bytes, HandlerRecord, HandlerSection, TableCodec, MetadataFile, PreEncode, RemillCall | the metadata file, byte by byte, its writer and its readers, the way from a binary's instructions into it, and interpreting from it |
| Search, HandlerIndex, OpcodeCache, Dispatch | lower-bound search, handler numbering, the handler cache, the interpreter's dispatch step |
| Chain, ChainShape, ChainLayout, Simulation, ChainRun, AddressCache | block splitting, event hooks, the flat slot arrays of all encoded binaries, running them, and address lookup through two caches |
| AesTables, AesBlock, AesModes, AesCtr, AesSample | AES-128 in place, CBC, CTR, key expansion and the sample's `test_main` |
| Debugger, DebugProtocol | watchdog, breakpoints and stepping over every interleaving |

`dafny verify dfyconfig.toml` checks everything.

## Reading the model

- Host and guest words are integers; additions wrap explicitly at 2^64. Private memory of the virtual
  machine (register cells, stack, PC word, chain slots) is word-granular and disjoint from the guest
  heap, which only the opcode touches.
- `None` stands for a trap of the source: `abort()`, a null dereference, a shift by 64 or more, a read
  past a table.
- Objects whose fields the source updates are classes; each method is tied to a function of the old
  state, and the properties are lemmas about those functions.
- Byte strings of the metadata file are sequences of naturals, written and read little-endian.
- The AES rounds are stated for any substitution and column steps with the inverses undoing them;
  `AesBlock.Aes` is AES's own choice, which the in-place code computes, and `AesBlock.AesUndoing`
  discharges the condition.

## Where a promise fails, and exactly when

- The AArch64 generator takes the first unused register as a stand-in for x26. The stand-in is acceptable
  if and only if x26 is unused or some x0 to x18 is (`NativeGenerator.StandInExactly`). Otherwise
  (`NativeGenerator.StandInCases`) it is one of x19 to x30, or, when all of x0 to x30 are used, no register
  at all: the emitted name is then not valid assembly. A callee-saved stand-in other than x27 is left
  holding the CPU pointer (`NativeGenerator.AArch64HandlerClobbers`); with x27 the chain pointer itself is
  lost (`NativeGenerator.AArch64ChainLost`). `NativeGenerator.OffendingSets` gives the smallest sets. With
  at most 18 general registers in use none of this can happen and x18 is not chosen either.
- The x86-64 generator succeeds if and only if its candidate table has enough unused registers; past
  its end the source reads beyond the table. Up to nine general registers in use (seven on Windows) always
  succeed (`NativeGenerator.FewRegistersSufficeX64`); one more can fail (`NativeGenerator.CandidatesRunOut`).
- A cast without a type makes the tree evaluator fault, always (`Flatten.FilledMeaning`), while the flat
  evaluator reads width 0 (`Flatten.UntypedCastDiffers`). The flat value is the value of the tree with
  missing widths filled in by 0; it is the tree's own value if and only if every cast has its type or that
  value is a fault (`Flatten.FlattenMeaning`). The same condition carries over to operands, to the whole
  table, to the file and to the calls made from it.
- With an extension, a register whose size is no whole number of bytes may lend bits beyond its size to the
  shift: `OperandArithmetic.ExtendAnyRegister` gives the value for every size.
- `handler()` points at embedded code if and only if the opcode length is a multiple of four
  (`HandlerRecord.CodePlacement`), as it is on ARM64.
- A callback that answers `Processed` keeps the real handler from running next if and only if the debugging
  hook is off (`ChainLayout.ProcessedSkips`).
- The record an instruction leads to holds exactly its bytes if and only if the length the engine gave the
  handler is the instruction's (`PreEncode.FollowBytes`). It is not when the disassembler rejects bytes that
  were prefetched: the length is then 0 (`PreEncode.RejectedBytes`).
- The next-instruction cache of the metadata interpreter spares a search only for an instruction that
  branches to itself (`Dispatch.Module.Step`): the source stores the found index at the found entry.

## Model

| member | source | states |
|---|---|---|
| `NativeHandler.HandlerRuns` | src/Lifter.cpp:688-988 | for every used set, footprint-respecting opcode, usable stand-ins and well-placed machine, on all three ABIs, the emitted code runs to its jump, changes guest registers and heap exactly as the opcode, restores host registers and stack, advances PC and chain pointer and passes the three arguments |
| `NativeGenerator.AArch64HandlerCorrect` | src/Lifter.cpp:688-787 | the same for what the AArch64 generator emits, with every callee-saved register but x27 preserved, whenever a volatile register or x26 is free |
| `NativeGenerator.StandInExactly` | src/Lifter.cpp:724-732 | the stand-in found is acceptable if and only if x26 or some x0 to x18 is free |
| `NativeGenerator.AArch64HandlerClobbers` | src/Lifter.cpp:724-732 | with any other stand-in up to x30 but x27 the guest result is still right and the callee-saved stand-in is overwritten, unless it held the CPU pointer already |
| `NativeGenerator.AArch64ChainLost` | src/Lifter.cpp:724-786 | with the stand-in x27 the line that advances the chain leaves x27 at its old value plus 8 if and only if it held the CPU pointer |
| `NativeHandler.ChainLost` | src/Lifter.cpp:724-786 | why: the chain register then advances from the CPU pointer |
| `NativeGenerator.StandInCases` | src/Lifter.cpp:724-732 | where the search ends when no volatile register is free: x19 to x30, x27 exactly when x0 to x26 are used, past x30 exactly when all are |
| `NativeGenerator.OffendingSets` | src/Lifter.cpp:724-732 | x0 to x18 with x26, and x0 to x26, reach the two bad cases |
| `NativeGenerator.FewRegistersSuffice` | src/Lifter.cpp:724-732 | up to 18 general registers never reach the bad case, nor x18 |
| `NativeGenerator.NativeHandlerAArch64` | src/Lifter.cpp:688-787 | the generator's loops emit exactly the handler the theorem is about |
| `NativeGenerator.FindCpuRegister` | src/Lifter.cpp:724-732 | the incrementing search ends at x26 or the least unused register |
| `NativeGenerator.X64HandlerCorrect` | src/Lifter.cpp:849-988 | the simulation on both x86-64 ABIs for every used set with enough free candidates, including guest RSP and R12, with every callee-saved register but r13 preserved |
| `NativeGenerator.X64StandIns` | src/Lifter.cpp:860-927 | the stand-ins for r12 and rsp are distinct, volatile and unused |
| `NativeGenerator.NativeHandlerX64` | src/Lifter.cpp:849-988 | emits that handler, if and only if enough candidates are free |
| `NativeGenerator.FewRegistersSufficeX64` | src/Lifter.cpp:860-927 | no more general registers in use than candidates: the table does not run out |
| `NativeGenerator.CandidatesRunOut` | src/Lifter.cpp:860-927 | all candidates with r12, one register more, and it does |
| `NativeGenerator.EmitSaves` | src/Lifter.cpp:713-722 | saves the used callee-saved registers in order |
| `NativeGenerator.EmitRestores` | src/Lifter.cpp:762-771 | restores them in the opposite order |
| `NativeChain.ChainRuns` | src/Lifter.cpp:688-988 | for every sequence of handlers whose addresses the slots hold, the processor goes through all of them; the guest is as after the opcodes in sequence, the PC advanced by the sum of the lengths, callee-saved registers and other memory are kept, control passes to the slot behind the chain, and everything stays in place |
| `NativeChain.GeneratedChainRuns` | src/Lifter.cpp:688-988 | the same for the stand-ins the generators pick, on all three ABIs |
| `NativeChain.HandlerSteps` | src/Lifter.cpp:688-988 | one handler of a chain: entered with its arguments, it enters the next with its own |
| `Flatten.FlattenShape` | src/OpcodeEngine.cpp:540-639 | appending a tree only extends the array, every child index is below its parent's, and no real index is `no_child` |
| `Flatten.FlattenMeaning` | src/OpcodeEngine.cpp:540-639 | the flat value is the value of the tree with missing types filled in; it is the tree's own value if and only if every cast has its type or that value is a fault |
| `Flatten.FilledMeaning` | src/OpcodeEngine.cpp:448-515 | filling in types changes nothing when all casts have theirs; otherwise the tree evaluator faults on every CPU state |
| `Flatten.UntypedCastDiffers` | src/InterpMetaData.cpp:188-242 | a concrete untyped cast on which the two evaluators differ |
| `Metadata.EvalStable` | src/InterpMetaData.cpp:188-242 | the value of a node is the same in every longer array |
| `Flatten.ConvertOneMeaning` | src/OpcodeEngine.cpp:641-730 | converting one operand of any kind keeps its value, now and after later appends, under the same exact condition |
| `Flatten.ConvertAllMeaning` | src/OpcodeEngine.cpp:1258-1275 | if the whole conversion succeeds, every operand has its original value on every CPU state, under the same exact condition |
| `Flatten.Converter.ConvertExpression` | src/OpcodeEngine.cpp:540-639 | the in-place push-back conversion leaves what the specification says, and fails exactly when it does |
| `Flatten.Converter.ConvertOperands` | src/OpcodeEngine.cpp:1258-1275 | the loop over all operands, likewise |
| `OperandArithmetic.ShiftRegisterExact` | src/InterpMetaData.cpp:75-157 | for sizes 32 and 64, any extract size and any register up to that width, the shift-register code is mathematical LSL, LSR, ASR, rotation and shift-in-ones |
| `OperandArithmetic.ExtendThenShift` | src/InterpMetaData.cpp:75-157 | for every extract size, also zero and beyond the register, extension followed by a left shift is extend-then-shift modulo 2^size |
| `OperandArithmetic.ExtendAnyRegister` | src/InterpMetaData.cpp:75-157 | the same for registers whose size is no whole number of bytes: which bits are shifted in each case |
| `OperandArithmetic.DoShiftIsShifted` | src/InterpMetaData.cpp:113-150 | each shift branch, on the word it receives, is the arithmetic shift or rotation |
| `OperandArithmetic.SignExtendIsSigned` | src/InterpMetaData.cpp:39-45 | xor-and-subtract is the two's-complement value of the low bits |
| `OperandArithmetic.MaskIsMod` | src/InterpMetaData.cpp:31-37 | masking is the remainder by a power of two |
| `OperandArithmetic.AddressIsSum` | src/InterpMetaData.cpp:159-186 | the branching address code is one sum modulo 2^min(64, size), for every scale and displacement above INT64_MIN |
| `OperandArithmetic.AddressOperandExact` | src/OpcodeEngine.cpp:401-439 | the same for an address operand read from the CPU state |
| `OperandMeaning.ShiftOperandExact` | src/OpcodeEngine.cpp:270-373 | a shift-register operand read from the CPU state is its register shifted or rotated on the operand's width |
| `OperandMeaning.ExtendOperandExact` | src/OpcodeEngine.cpp:270-373 | with an extension, extend-then-shift, for registers of any size and both flags |
| `OperandMeaning.ConvertedShiftExact` | src/InterpMetaData.cpp:75-157 | both after conversion, in any later node array |
| `OperandMeaning.ConvertedAddressExact` | src/InterpMetaData.cpp:159-186 | the address sum after conversion |
| `HandlerRecord.RecordRoundTrip` | src/PreEncoder.cpp:242-330 | reading a record back gives type, opcode bytes, implementation field and operands with pointer flags |
| `HandlerRecord.DumpSizeExact` | src/PreEncoder.cpp:763-863 | the size recomputed from a record's fixed fields is the size written |
| `HandlerRecord.CodePlacement` | src/IMetaData.h:110-129 | embedded code is aligned in its record, and `handler()` finds it if and only if the opcode length is a multiple of four |
| `HandlerSection.SerializeHandlers` | src/PreEncoder.cpp:218-363 | on success one record per handler with running offsets within 32 bits; on failure no such records exist |
| `HandlerSection.RecordsTile` | src/PreEncoder.cpp:331-363 | every byte of the section belongs to exactly one record |
| `HandlerSection.SectionReads` | src/IMetaData.h:105-129 | following the offset of handler i yields handler i |
| `HandlerSection.CodeAligned` | src/PreEncoder.cpp:287-301 | with embedded ARM64 code every blob starts at a file offset divisible by four, where `handler()` points |
| `HandlerSection.DumpOffsets` | src/PreEncoder.cpp:770-863 | the walk in `dump` on any data, including truncated and unknown records |
| `HandlerSection.WalkReproduces` | src/PreEncoder.cpp:770-863 | on a written section the walk recomputes all the writer's offsets |
| `TableCodec.NodeRoundTrip` | src/IMetaData.h:25-60 | a 12-byte expression node reads back as written |
| `TableCodec.OperandRoundTrip` | src/IMetaData.h:62-103 | a 48-byte operand of any type reads back as written |
| `MetadataFile.SerializeImage` | src/PreEncoder.cpp:365-455 | writes the file made of the image's parts, or fails exactly when there are none (conversion, handler, index or 32-bit limit) |
| `MetadataFile.FillBuffer` | src/PreEncoder.cpp:409-447 | the in-place copies at the section offsets produce header, instructions, operands, nodes and records without gap |
| `MetadataFile.ResolveHandlers` | src/PreEncoder.cpp:375-386 | handler indices become offsets, if and only if all are valid |
| `MetadataFile.FollowInstruction` | src/IMetaData.h:157-173 | an instruction entry leads through the section offsets to the fields of its handler, and keeps the "no handler" mark exactly when it had it |
| `MetadataFile.TablesRead` | src/IMetaData.h:175-183 | operand and expression tables read back from the file bytes |
| `MetadataFile.FileMeaning` | src/InterpMetaData.cpp:244-273 | end to end: every operand and all nodes decode from the file, and the decoded operand evaluates like the original tree on every CPU state, under the exact condition of `Flatten.FlattenMeaning` |
| `RemillCall.InterpretsAlike` | src/InterpMetaData.cpp:449-468 | for every instruction with a Remill handler, every PC and CPU state, following it through the file makes the engine's call: same implementation, next PC and parameters, if and only if the casts of its operands have their types or the file yields a fault |
| `RemillCall.InterpRemill` | src/OpcodeEngine.cpp:961-992 | the engine's loop fills the parameters of that call, or faults |
| `MetadataFile.NodesReadUnique` | src/IMetaData.h:175-183 | a reader has no choice about the nodes |
| `PreEncode.AnalyzeInsnMeta` | src/PreEncoder.cpp:202-216 | every instruction that is not data gets its address and the index of its handler |
| `PreEncode.LoadedPrefetched` | src/PreEncoder.cpp:132-155 | the loaded handler list is the one of the prefetched opcodes |
| `PreEncode.RecordedBytes` | src/PreEncoder.cpp:303-312 | a record's opcode is the prefetched bytes padded with zeros, cut at the handler's length |
| `PreEncode.FollowBytes` | src/PreEncoder.cpp:202-216 | for prefix-free opcodes, following an instruction of the binary through the file leads to its own bytes, if and only if the length of the handler it was given is theirs |
| `PreEncode.RejectedBytes` | src/OpcodeEngine.cpp:890-906 | for every four bytes the disassembler rejects, the file is written and the record followed holds no bytes |
| `MetadataFile.ConvertAllFits` | src/OpcodeEngine.cpp:540-730 | converted operands and nodes fit the fixed-width fields of the file |
| `MetadataFile.FileCodeAligned` | src/PreEncoder.cpp:287-301 | alignment of embedded code in the whole file |
| `MetadataFile.FileWalk` | src/PreEncoder.cpp:763-863 | `dump` recomputes the offsets of a whole file when it and the writer agree about embedded code |
| `Search.BinarySearch` | include/Utils.h:24-34 | the branchless loop returns the lower bound of every non-empty sorted array |
| `Search.ExactIffMember` | include/Utils.h:36-39 | `is_exact` on the lower bound decides membership, and finds the position in a strictly sorted array |
| `HandlerIndex.SameKey` | src/PreEncoder.cpp:176-199 | two opcodes share a zero-padded key if and only if one is the other followed by zero bytes |
| `HandlerIndex.KeyInjective` | src/PreEncoder.cpp:176-199 | prefix-free opcodes of one width class have distinct keys |
| `HandlerIndex.Less128IsLess` | include/Utils.h:112-122 | the two-word comparison is the order of 128-bit numbers |
| `HandlerIndex.KeyOrder128` | include/Utils.h:112-122 | the set of long opcodes is ordered by the same keys as the others |
| `HandlerIndex.InsertKeeps` | src/OpcodeEngine.cpp:1152-1188 | prefetching keeps each set sorted and covering exactly the prefetched opcodes |
| `HandlerIndex.PreEncoder.PrefetchFunction` | src/OpcodeEngine.cpp:1137-1192 | the loop over one function's instructions |
| `HandlerIndex.PreEncoder.LoadHandlers` | src/PreEncoder.cpp:132-155 | the five ranges partition the handler list in order |
| `HandlerIndex.PreEncoder.HandlerIndex` | src/PreEncoder.cpp:157-200 | the only position with the opcode's key and class, or invalid when none was prefetched; with prefix-free opcodes the handler made for exactly these bytes |
| `OpcodeCache.OpcodeHandlers.Prefetch` | src/OpcodeEngine.h:94-104 | keeps the cache invariant and adds the opcode if it is new |
| `OpcodeCache.OpcodeHandlers.Emulate` | src/OpcodeEngine.h:106-130 | cache hit or set lookup, the handler is the unique member with the opcode; failure exactly when it is absent and may not or cannot be made |
| `OpcodeCache.Drive` | src/OpcodeEngine.h:90-131 | every sequence of prefetch and emulate picks, command by command, the handlers it would pick without a cache |
| `Dispatch.Module.Find` | src/InterpMetaData.cpp:365-370 | the entry of an address of the module |
| `Dispatch.Module.Step` | src/InterpMetaData.cpp:573-596 | one step ends at the entry of pc whatever the cache holds, keeps every cached index i or i + 1, and uses the cache exactly for a searched-for instruction that branches to itself |
| `Dispatch.Module.Run` | src/InterpMetaData.cpp:573-596 | over any run every step ends at the matching entry |
| `Dispatch.EntryUnique` | src/InterpMetaData.cpp:365-370 | an address has one entry |
| `Dispatch.Module.constructor` | src/InterpMetaData.cpp:315-318 | the initial cache satisfies the invariant |
| `Chain.BasicBlocks.EncodeBinary` | src/Orchestrator.cpp:65-170 | the in-place encoder leaves the block addresses, the concatenation of the handler lists and pointers to each block's slots |
| `Chain.BasicBlocks.EncodeInsn` | src/Orchestrator.cpp:81-153 | one instruction of the inner loop |
| `Chain.BasicBlocks.Convert` | src/Orchestrator.cpp:16-35 | flattening: one array, consecutive pointers per block |
| `ChainShape.EraseEncode` | src/Orchestrator.cpp:37-170 | erasing the hooks of any event configuration gives the un-instrumented encoding, block by block |
| `ChainShape.EraseFlat` | src/Orchestrator.cpp:16-35 | the same for the flat arrays |
| `ChainShape.EncodeLeaders` | src/Orchestrator.cpp:65-170 | block addresses strictly increase and are exactly the function entries, referenced instructions and instructions behind a jump, call or return |
| `ChainShape.EncodeHeads` | src/Orchestrator.cpp:65-170 | one handler list per address, which behind its hooks begins with the instruction at that address |
| `Simulation.RunMatched` | src/Event.cpp:17-151 | a stuttering simulation matches every run of the first system |
| `Simulation.RunReached` | src/Event.cpp:17-151 | and every run of the second |
| `ChainRun.ChainSimulates` | src/Event.cpp:17-151 | an instrumented chain simulates its plain form, stuttering only on hooks |
| `ChainRun.EncodingStrips` | src/Orchestrator.cpp:16-170 | the slots and block starts of an instrumented binary without hooks are those of the plain one |
| `ChainRun.InstrumentationTransparent` | src/Event.cpp:17-151 | for all encoded binaries, each with its own configuration, and every run with Continue callbacks, through transfers between binaries, both programs execute the same non-hook slots on the same guest states, in both directions, and end, abort or leave the block starts alike |
| `ChainLayout.InsnOccurs` | src/Orchestrator.cpp:65-170 | every instruction's slots lie in a row in the flat array |
| `ChainLayout.ProcessedSkips` | src/Event.cpp:37-54 | at an instruction's hook, after a Processed answer the real handler is reached before any other slot is executed if and only if the debugging hook is on |
| `ChainLayout.ProcessedInBinary` | src/Event.cpp:37-54 | so it is for every instruction of every encoded binary |
| `AddressCache.EncodedUsable` | src/Orchestrator.cpp:185-198 | looking up any block address of an encoded binary returns that block's first slot |
| `AddressCache.GotoIsFind` | src/Event.cpp:132-146 | with disjoint ranges, wherever the chains continue after a transfer, in the same binary or another, is the slot find returns for the PC |
| `AddressCache.AnswerUnique` | src/Orchestrator.cpp:221-242 | with disjoint ranges there is one right answer, the uncached scan's |
| `AddressCache.ScanGrows` | src/Orchestrator.cpp:65-70 | encoding another binary never changes the answer for an address that had one |
| `AddressCache.Orchestrator.SearchBlocks` | src/Orchestrator.cpp:185-219 | the search with its mid-block walk, as written |
| `AddressCache.Orchestrator.Find` | src/Orchestrator.cpp:172-242 | through both caches: a true answer, and the scan's when ranges are disjoint |
| `AddressCache.Orchestrator.EncodeBinary` | src/Orchestrator.cpp:65-170 | appends the encoded binary and keeps every cached line right |
| `AddressCache.Orchestrator.Clear` | src/Orchestrator.cpp:244-247 | empties tables and caches |
| `AddressCache.Drive` | src/Orchestrator.cpp:172-247 | every sequence of encode, find and clear with disjoint ranges answers as without caches |
| `AesTables.SboxInverse` | sample/aes.c:158-195 | rsbox undoes sbox |
| `AesTables.MixIsMatrix` | sample/aes.c:373-392 | the in-place column formula is the matrix of section 5.1.3 of FIPS 197 |
| `AesTables.UnmixMix` | sample/aes.c:373-445 | InvMixColumns undoes MixColumns on every column |
| `AesTables.MixedWithIsMix` | sample/aes.c:379-392 | what the loop body of MixColumns leaves is the column step |
| `AesTables.UnmixedWithIsUnmix` | sample/aes.c:408-445 | the loop body of InvMixColumns, with the Multiply macro, computes the inverse column step |
| `AesBlock.MixColumnInPlace` | sample/aes.c:384-391 | the loop body of MixColumns, statement by statement in place |
| `AesBlock.MixColumnsInPlace` | sample/aes.c:379-392 | all four columns |
| `AesBlock.UnmixColumnsInPlace` | sample/aes.c:429-445 | InvMixColumns in place |
| `AesBlock.UnshiftShift` | sample/aes.c:345-487 | InvShiftRows undoes ShiftRows |
| `AesBlock.InvCipherUndoes` | sample/aes.c:492-541 | InvCipher undoes Cipher for every block and every round-key array |
| `AesBlock.AesUndoing` | sample/aes.c:158-445 | AES's own steps are inverse to one another |
| `AesBlock.CipherInPlace` | sample/aes.c:492-515 | the in-place rounds compute Cipher and touch only the block |
| `AesBlock.InvCipherInPlace` | sample/aes.c:518-541 | likewise InvCipher |
| `AesBlock.ShiftRowsInPlace` | sample/aes.c:345-371 | the swaps move row r left by r columns |
| `AesBlock.AddRoundKeyInPlace` | sample/aes.c:316-326 | XOR with the round key |
| `AesModes.CbcRoundTrip` | sample/aes.c:571-608 | CBC decryption from the same vector undoes encryption for every whole number of blocks |
| `AesModes.CbcEncryptBuffer` | sample/aes.c:580-593 | in place, the vector in the same buffer, CBC of section 6.2 of NIST SP 800-38A; the context keeps the last ciphertext block |
| `AesModes.CbcDecryptBuffer` | sample/aes.c:595-608 | in place, likewise |
| `AesCtr.CtrTwice` | sample/aes.c:617-648 | CTR applied twice from the same vector restores a buffer of any length |
| `AesCtr.CounterValue` | sample/aes.c:631-643 | the vector is a 128-bit big-endian counter modulo 2^128 |
| `AesCtr.IncrementAddsOne` | sample/aes.c:631-643 | the carry loop adds one modulo the number of values |
| `AesCtr.CtrXcryptBuffer` | sample/aes.c:617-648 | in place, the key stream of section 6.5 of NIST SP 800-38A, and the vector advances by the blocks started |
| `AesSample.KeyExpansion` | sample/aes.c:225-296 | the round keys are the words of section 5.2 of FIPS 197 |
| `AesSample.Unpadded` | sample/aes.c:652-702 | the last byte of a padded string recovers its length |
| `AesSample.TestMain` | sample/aes.c:652-702 | every input of at most 63 bytes is returned NUL-terminated |
| `Debugger.AetherProcess.WatchDog` | lldb/src/Process.cpp:55-65 | a breakpoint or a thread that is not running parks it |
| `Debugger.AetherProcess.SetBreakpoint` | lldb/src/Process.cpp:217-230 | raises the count of the translated address |
| `Debugger.AetherProcess.RemoveBreakpoint` | lldb/src/Process.cpp:232-246 | lowers it and succeeds exactly when the breakpoint exists |
| `Debugger.AetherThread.WatchDog` | lldb/src/Thread.cpp:49-68 | stopped parks, stepping becomes stopped and parks, running goes on |
| `DebugProtocol.BreakpointParks` | lldb/src/Process.cpp:55-65 | over every interleaving an instruction whose breakpoint the watchdog saw runs only after its thread parked there and was woken |
| `DebugProtocol.StepsOnce` | lldb/src/Thread.cpp:76-80 | between a single step and the next park at most one instruction of the thread runs |
| `DebugProtocol.BreakpointExists` | lldb/src/Process.cpp:217-246 | a breakpoint exists exactly when sets exceed successful removes |

## Left out

- Remill, LLVM and AetherBinary: decoding, lifting, object emission, relocation and the choice of an implementation are inputs of the model.
- Register-use analysis and canonicalisation in src/Lifter.cpp: the used set is an input; large tables of easy cases.
- SP operands on AArch64, flags, XMM16 to XMM31 and upper vector halves in native handlers: the generated code does not save or load them. XMM16 to XMM31 may be in the used set, but the opcode's effect must not depend on them.
- NativeChain.ChainRuns: straight-line chains only; where a handler of the host continues after a transfer is the subject of ChainRun.
- RemillCall.InterpretsAlike: assumes that a handler's operand numbers are in the engine's operand table, as the engine numbers operands when it stores them.
- Machine encoding of the emitted assembly lines: they are a datatype, with the extraction of the 59-bit handler field as one or two instructions.
- Operand de-duplication in src/OpcodeEngine.cpp: its keys are not injective, and nothing is claimed about it.
- Operand sizes of 2^16 and more: the conversion truncates them, so the meaning lemmas require smaller sizes.
- iOS chained handlers, register renaming and hand-written instruction interpreters: platform code.
- `dump` on x86-64 files with the writable-executable flag: it pads records that the writer does not pad, so the walk property requires ARM64 there.
- File and stream output, page protection, system calls and the event callbacks' own effects: parameters or absent.
- Address arithmetic modulo 2^64 in src/Orchestrator.cpp: guest addresses are unbounded and relocated functions are assumed not to wrap.
- PreEncode.FollowBytes: assumes that an instruction's bytes were among those prefetched; the two decoders of the source may split code differently.
- AddressCache.Orchestrator.SearchBlocks: claims nothing about which instruction the mid-block walk of src/Orchestrator.cpp:200-218 selects; it is only shown to be the same with and without caches.
- AddressCache.Drive: covers the cache of one thread; pointers kept by other threads across a growing block list are not modelled.
- ChainRun.InstrumentationTransparent: stops following a run that transfers to an address that is no block start, because of that walk; both chains are shown to leave with the same address and guest state.
- Lookup across modules in `InterpMetaData::find` and the last table entry in `vmEntry`: the source reads a neighbouring or missing entry there, so the dispatch step stays in one module and before the last entry.
- HandlerRecord.DumpSizeExact: assumes that writer and reader agree about embedded code.
- Debugger liveness: wake-ups are not protected by a predicate in the source; only safety is stated, with wake-ups allowed at any time.
- Register tables, guest memory, the gdb-remote server, `elf_hash` and string helpers: easy or foreign.
- The expression opcodes beyond those both evaluators implement, and floating point: absent from the source's evaluators as well.
