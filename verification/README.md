# PolkaVM: verified models

PolkaVM runs guest programs in a compact instruction format. These models cover five of its parts and prove what
each of them is for.

- **Gas simulator** (`Resources`, `Pipeline`, `PipelineInvariant`, `PipelineProgress`, `PipelineRun`,
  `PipelineCriticalPath`, `PipelineOrder`, `PipelineFastForward`, `PipelineExactRuns`, `PipelineDelay`,
  `PipelineUnlikely`, `GasSimulator`). Blocks are priced by an out-of-order pipeline with a 32-entry reorder buffer.
  `Pipeline` gives each phase of a tick as a function on states; `GasSimulator` is the class that does it in place, with
  scans and loops over the lanes, and is proved to match. Every reachable state keeps one invariant. A block's cost
  covers every dependence chain and stays within a budget. A tick that skips cycles is exact if and only if the start
  loop, which gives up after five, left nothing startable. So fast-forward does not change the cost of a block in which
  all but the last instruction need an ALU slot or take one cycle; a block with `unlikely` in it can cost more
  (`PipelineUnlikely.FastForwardCostsMore`).
- **BLAKE3** (`Blake3`, `Blake3Stack`, `Blake3Hasher`). The incremental hasher with its stack of chaining values
  computes the recursive tree of section 2.1 of the BLAKE3 paper, for any split of the input.
- **Program format** (`Bytes`, `Bits`, `Varint`, `Codec`, `CodecRoundTrip`, `Bitmask`, `BitmaskScans`, `Traversal`,
  `TraversalCoverage`, `TraversalBoundary`, `CodeWriter`, `CodeImage`, `CodeRoundTrip`, `JumpTable`,
  `CodeSerializer`, `LostEntry`, `BlobWriter`, `BlobReader`, `BlobContents`, `BlobRoundTrip`, `ProgramRoundTrip`,
  `BinarySearch`). Writer and reader are inverse to
  each other, from single operands up to whole blobs, and the traversals deliver every instruction once. Instruction
  sets are tables that assign opcodes to bytes; everything holds for any such table.
- **amd64 assembler** (`Fixups`, `LabelInstructions`, `Amd64`, `Amd64Address`, `Amd64Correct`, `InstBuf`). Label
  fixups land on their labels after any history of pushes, definitions and truncations. Encoded memory operands
  decode, by sections 2.1.5 and 2.2.1 of the Intel SDM volume 2A, to the address they mean.
- **Guest memory map** (`MemoryMap`). The layout exists exactly up to a stated total size and keeps its guards.

Machine integers are written out where their width matters; elsewhere numbers are unbounded. `{:induction false}` marks
every lemma: each proof does its own recursion. `dafny verify dfyconfig.toml` checks the project.

Where code and documentation part ways, the models follow the code:

- the jump table's entry size is the longest leading run of non-zero little-endian bytes, not the number of
  significant bytes, so an entry can be lost (`CodeSerializer.JumpTableReadsBackIff`, `LostEntry.JumpTableEntryLost`);
- the slow bitmask scan gives up at a byte boundary 24 bytes after the byte following the opcode, so the two scans
  disagree in one case (`BitmaskScans.VerdictsDifferOnlyAtBoundary`). Within 32 bytes of the end of the code, where
  the slow scan is used, the walkers then report an invalid instruction at an offset where an instruction starts
  (`TraversalBoundary.FalseReportIffBoundary`, `OffsetReportedTwice`).

## Model

| member | source | states |
|---|---|---|
| Resources.GuardTestIsExact | crates/polkavm-common/src/simulator.rs:720-748 | one packed subtraction leaves all guard bits set exactly when each of the five counts (ALU, load, store, mul, div) suffices, and its result is the packed remainder |
| Resources.PackIsInjective | crates/polkavm-common/src/simulator.rs:272-287 | packed requirements within capacity name their counts uniquely |
| Pipeline.ExecutedRun | crates/polkavm-common/src/simulator.rs:652-702 | the run of executed slots counted from the head is maximal |
| Pipeline.FirstStartable | crates/polkavm-common/src/simulator.rs:704-755 | the slot picked is startable and no older slot is |
| Pipeline.CyclesToCharge | crates/polkavm-common/src/simulator.rs:757-812 | a tick charges between 1 and 127 cycles |
| PipelineInvariant.RetireKeeps | crates/polkavm-common/src/simulator.rs:652-702 | retirement keeps the full invariant: circular window, phases, dependencies, renaming, resource conservation, age order |
| PipelineInvariant.StartsKeep | crates/polkavm-common/src/simulator.rs:704-755 | the start loop keeps the full invariant, so resources in use never exceed capacity |
| PipelineInvariant.ExecuteKeeps | crates/polkavm-common/src/simulator.rs:757-812 | executing by any safe number of cycles keeps the full invariant; finished slots give back exactly what they held |
| PipelineInvariant.TickKeeps | crates/polkavm-common/src/simulator.rs:583-853 | every tick, with or without fast-forward, keeps the full invariant |
| PipelineInvariant.AllocateKeeps | crates/polkavm-common/src/simulator.rs:932-1006 | dispatching an instruction keeps the full invariant; dependencies name only older unfinished slots |
| PipelineInvariant.RenameKeeps | crates/polkavm-common/src/simulator.rs:1008-1032 | a register move keeps the rename table and its inverse consistent |
| PipelineInvariant.ClearedHolds | crates/polkavm-common/src/simulator.rs:523-556 | a cleared simulator satisfies the full invariant |
| PipelineProgress.TickLowersWork | crates/polkavm-common/src/simulator.rs:583-853 | on a non-empty buffer each tick lowers a measure by at least the cycles it charges |
| PipelineRun.Drain | crates/polkavm-common/src/simulator.rs:866-888 | draining terminates, empties the buffer as far as asked, and takes no more cycles than the measure |
| PipelineRun.FeedWithinBudget | crates/polkavm-common/src/simulator.rs:891-1032 | feeding one instruction adds at most its own budget to the cycles spent and owed |
| PipelineRun.BlockWithinBudget | crates/polkavm-common/src/simulator.rs:583-888 | a whole block takes at most the sum of latency + 4 over its instructions plus one per move |
| PipelineCriticalPath.ChainWithinDepth | crates/polkavm-common/src/simulator.rs:932-1032 | no register-dependence chain is longer than the computed depth of its last instruction |
| PipelineCriticalPath.DepthIsAttained | crates/polkavm-common/src/simulator.rs:932-1032 | some chain, through moves as well, is exactly that long |
| PipelineCriticalPath.TickOnTime | crates/polkavm-common/src/simulator.rs:583-853 | a tick keeps every slot no further than its inputs allow |
| PipelineCriticalPath.FeedOnTime | crates/polkavm-common/src/simulator.rs:891-1032 | so does feeding an instruction |
| PipelineCriticalPath.DoneAfterDepth | crates/polkavm-common/src/simulator.rs:583-888 | a block is not done before three cycles after any of its instructions can have finished |
| PipelineCriticalPath.CostCoversEveryChain | crates/polkavm-common/src/simulator.rs:1412-1422 | the cost of a block is at least the latency of every dependence chain in it |
| PipelineOrder.TickRetiresInOrder | crates/polkavm-common/src/simulator.rs:652-702 | what a tick retires is the oldest part of the buffer, in program order |
| PipelineOrder.DrainRetiresInOrder | crates/polkavm-common/src/simulator.rs:866-888 | so it is for a whole drain |
| PipelineOrder.BufferIsYoungestPart | crates/polkavm-common/src/simulator.rs:891-1032 | at any point the buffer holds the most recent instructions of the block in program order |
| PipelineFastForward.FastForwardIsExact | crates/polkavm-common/src/simulator.rs:757-812 | a tick that skips k cycles reaches the state of k single ticks when nothing is left startable |
| PipelineFastForward.FastForwardIsExactIff | crates/polkavm-common/src/simulator.rs:704-812 | and only then, unless it skips nothing |
| PipelineExactRuns.DrainIsExact | crates/polkavm-common/src/simulator.rs:866-874 | draining with and without fast-forward ends in the same state when no tick skips cycles and leaves something startable |
| PipelineExactRuns.CostIsExact | crates/polkavm-common/src/simulator.rs:866-888 | so do whole block costs |
| PipelineExactRuns.CostIsExactByAlu | crates/polkavm-common/src/simulator.rs:704-812 | the two costs are equal if every instruction without an ALU slot, except the last such, takes one cycle: five starts and four ALU slots leave nothing behind or nothing to skip |
| PipelineExactRuns.CostIsExactForQuickBlocks | crates/polkavm-common/src/simulator.rs:2146-2360 | in particular if all but the block's last instruction need an ALU slot or take one cycle, which in the table only unlikely does not |
| PipelineDelay.DrainTakesAtLeast | crates/polkavm-common/src/simulator.rs:583-874 | draining takes at least two cycles more than any instruction in the buffer has left |
| PipelineDelay.DrainTakesAtMost | crates/polkavm-common/src/simulator.rs:583-874 | without fast-forward, and with everything started, it takes at most two more than the longest has left |
| PipelineUnlikely.FastForwardCostsMore | crates/polkavm-common/src/simulator.rs:704-812 | a block of count_trailing_zero_bits_32, four sign_extend_8 of its result, fourteen unlikely and a jump costs more with fast-forward than without, for all latencies of unlikely from 5 and of the jump from 4; at the table's 40 and 15, at least 56 against at most 44 |
| GasSimulator.ChooseStarts | crates/polkavm-common/src/simulator.rs:704-755 | the start loop picks exactly the slots its specification starts |
| GasSimulator.Simulator.constructor | crates/polkavm-common/src/simulator.rs:486-517 | a new simulator is cleared |
| GasSimulator.Simulator.Clear | crates/polkavm-common/src/simulator.rs:523-556 | clears every lane, counter and table |
| GasSimulator.Simulator.CountRetirable | crates/polkavm-common/src/simulator.rs:653-658 | the scan from the head counts the leading run of executed slots |
| GasSimulator.Simulator.Retire | crates/polkavm-common/src/simulator.rs:652-702 | slot by slot, retires that run and nothing else |
| GasSimulator.Simulator.StartReady | crates/polkavm-common/src/simulator.rs:704-755 | the new state is the specification's after at most five starts |
| GasSimulator.Simulator.ChooseCycles | crates/polkavm-common/src/simulator.rs:757-771 | the loop over the lanes finds the horizontal minimum, which as a signed byte decides the cycles charged |
| GasSimulator.Simulator.CountDown | crates/polkavm-common/src/simulator.rs:773-776 | counts the executing lanes down with saturation and collects those that reach zero |
| GasSimulator.Simulator.ReleaseRegisters | crates/polkavm-common/src/simulator.rs:789-794 | lane by lane, registers of finished slots are released and no others |
| GasSimulator.Simulator.ReleaseResources | crates/polkavm-common/src/simulator.rs:796-800 | the wrapping sixteen-bit sum over the lanes is what finished slots give back |
| GasSimulator.Simulator.Progress | crates/polkavm-common/src/simulator.rs:757-812 | these loops together are k executed cycles of the specification |
| GasSimulator.Simulator.FinishDecode | crates/polkavm-common/src/simulator.rs:814-822 | afterwards exactly the slots that waited or decoded wait and none decodes; the decode slots are refilled and the invariant is kept |
| GasSimulator.Simulator.TickCycle | crates/polkavm-common/src/simulator.rs:583-853 | one tick, in place, is the specification's tick |
| GasSimulator.Simulator.TickCycleIfCannotDecode | crates/polkavm-common/src/simulator.rs:856-862 | makes room for an instruction and keeps the invariant |
| GasSimulator.Simulator.TickCycleLoop | crates/polkavm-common/src/simulator.rs:866-874 | terminates in the specification's drained state and keeps the invariant |
| GasSimulator.Simulator.WaitUntilEmpty | crates/polkavm-common/src/simulator.rs:877-888 | leaves nothing in flight |
| GasSimulator.Simulator.DispatchGeneric | crates/polkavm-common/src/simulator.rs:891-1006 | dispatch in place is the specification's feed and keeps the invariant |
| GasSimulator.Simulator.DispatchMoveReg | crates/polkavm-common/src/simulator.rs:1008-1032 | a register move in place is the specification's and keeps the invariant |
| GasSimulator.Simulator.TakeBlockCost | crates/polkavm-common/src/simulator.rs:1412-1422 | gives the cost of a finished block and clears, or changes nothing |
| GasSimulator.Simulator.CostOfBlock | crates/polkavm-common/src/simulator.rs:2427-2468 | the cost of a block covers every dependence chain and stays within the budget |
| GasSimulator.CostBounds | crates/polkavm-common/src/simulator.rs:1412-1422 | both bounds at once, for every block |
| Blake3.ShorterIsPrefix | crates/polkavm-common/src/blake3.rs:127-143 | a shorter output is a prefix of a longer one |
| Blake3.RootFlagOnlyAtRoot | crates/polkavm-common/src/blake3.rs:108-143 | no compression of a block, chunk or parent has the ROOT flag: two compression functions that differ only under that flag give the same tree |
| Blake3Stack.FoldIsSubtree | crates/polkavm-common/src/blake3.rs:328-344 | folding the stack from the right with the last chunk gives the root of the recursive left-full tree |
| Blake3Stack.StackLength | crates/polkavm-common/src/blake3.rs:292-305 | the stack has one entry per one-bit of the number of finished chunks |
| Blake3Stack.MergeStep | crates/polkavm-common/src/blake3.rs:292-305 | one merge doubles the subtree on top and the stack is never empty when it happens |
| Blake3Stack.MergeEnds | crates/polkavm-common/src/blake3.rs:292-305 | when merging stops, the stack is the one for the new chunk count |
| Blake3Hasher.StackFits | crates/polkavm-common/src/blake3.rs:238-245 | 54 entries suffice below 2^64 bytes of input |
| Blake3Hasher.ChunkState.constructor | crates/polkavm-common/src/blake3.rs:156-165 | a fresh chunk has absorbed nothing |
| Blake3Hasher.ChunkState.Len | crates/polkavm-common/src/blake3.rs:167-169 | the length is the number of bytes absorbed |
| Blake3Hasher.ChunkState.Update | crates/polkavm-common/src/blake3.rs:179-205 | the chunk state is that of the bytes so far followed by the input |
| Blake3Hasher.ChunkState.CurrentOutput | crates/polkavm-common/src/blake3.rs:207-218 | the output is that of the bytes absorbed, as one chunk |
| Blake3Hasher.Hasher.constructor | crates/polkavm-common/src/blake3.rs:247-256 | a fresh hasher has absorbed nothing |
| Blake3Hasher.Hasher.PushStack | crates/polkavm-common/src/blake3.rs:281-284 | pushes onto the live part of the stack |
| Blake3Hasher.Hasher.PopStack | crates/polkavm-common/src/blake3.rs:286-290 | pops from the live part of the stack |
| Blake3Hasher.Hasher.AddChunkChainingValue | crates/polkavm-common/src/blake3.rs:292-305 | the stack becomes the one for one chunk more; pops never underflow and pushes never overflow |
| Blake3Hasher.Hasher.Update | crates/polkavm-common/src/blake3.rs:308-325 | the hasher state is that of the message so far followed by the input |
| Blake3Hasher.Hasher.RootOutput | crates/polkavm-common/src/blake3.rs:328-344 | the root output is that of the recursive tree over the whole message |
| Blake3Hasher.Hasher.Finalize | crates/polkavm-common/src/blake3.rs:328-344 | the output bytes are the tree hash of the message |
| Blake3Hasher.RootOutputBytes | crates/polkavm-common/src/blake3.rs:127-143 | fills the slice with the root output, block by block |
| Blake3Hasher.SameMessageSameState | crates/polkavm-common/src/blake3.rs:308-325 | two hashers given the same bytes, however split, are in the same state |
| Varint.VarintExtraIs | crates/polkavm-common/src/varint.rs:1-6 | the exclusive-or formula gives 0 to 4 extra bytes at the thresholds 2^7, 2^14, 2^21, 2^28 |
| Varint.VarintRoundTrip | crates/polkavm-common/src/varint.rs:10-63 | reading an encoded number gives it back with its length, whatever follows |
| Varint.ReadVarintIs | crates/polkavm-common/src/varint.rs:10-26 | a varint is read exactly when its announced length is at most four and there; below four further bytes the value is the top bits followed by them |
| Varint.WriteVarint | crates/polkavm-common/src/varint.rs:28-63 | writes the encoding to the front of the buffer and leaves the rest |
| Varint.SimpleLengthIs | crates/polkavm-common/src/varint.rs:102-127 | the length thresholds of simple varints, from leading zeros and ones |
| Varint.SignExtendIs | crates/polkavm-common/src/varint.rs:96-100 | sign extension reads the low bytes as a signed number; length 0 reads as 0 |
| Varint.SimpleRoundTrip | crates/polkavm-common/src/varint.rs:96-160 | a simple varint reads back from any chunk whose low bytes are its encoding |
| Varint.SimpleIsShortest | crates/polkavm-common/src/varint.rs:102-127 | no shorter length reads back as the same number |
| Varint.WriteSimpleVarint | crates/polkavm-common/src/varint.rs:129-159 | writes the encoding to the front of the buffer and leaves the rest |
| Codec.UnpackPack | crates/polkavm-common/src/program.rs:374-387 | the three six-bit fields of a lookup entry come back |
| Codec.LookupIs | crates/polkavm-common/src/program.rs:389-459 | a table entry gives the two immediate lengths for its skip and aux values |
| CodecRoundTrip.ArgsBack | crates/polkavm-common/src/program.rs:481-587 | for all thirteen operand formats, decoding the encoded operands followed by anything gives them back |
| CodecRoundTrip.DecodeEncoded | crates/polkavm-common/src/program.rs:1029-1047 | encode then decode is the identity for every supported instruction, padded jumps included, whatever bytes follow |
| Bitmask.FindNextOffset | crates/polkavm-common/src/program.rs:185-198 | finds the first mark from an offset on, or the end of the code |
| Bitmask.ParseBitmaskSlow | crates/polkavm-common/src/program.rs:4635-4658 | the byte-wise scan gives the distance to the next mark, capped at 24, and accepts it exactly when in reach |
| BitmaskScans.FastIsNext | crates/polkavm-common/src/program.rs:4661-4670 | the word-wise scan gives the distance to the next mark, capped at 24 |
| BitmaskScans.FastSkipIsSlowSkip | crates/polkavm-common/src/program.rs:4635-4670 | both scans give the same skip |
| BitmaskScans.VerdictsDifferOnlyAtBoundary | crates/polkavm-common/src/program.rs:273-300 | their verdicts differ exactly when the next mark is 25 bytes on at a multiple of 8; then only the fast one accepts it |
| BitmaskScans.PreviousSkipIs | crates/polkavm-common/src/program.rs:4403-4424 | the backward scan finds the nearest earlier mark exactly when it is in reach |
| BitmaskScans.PreviousSkipNone | crates/polkavm-common/src/program.rs:4403-4424 | with no earlier mark it finds none |
| BitmaskScans.ForwardIffBackward | crates/polkavm-common/src/program.rs:4403-4424 | the slow forward scan accepts t after o exactly when t is marked and the backward scan from t leads to o |
| Traversal.StepSlow | crates/polkavm-common/src/program.rs:201-253 | decodes near the end of the code, with zero padding, and suppresses the trap after a last instruction that cannot fall through |
| Traversal.StepFast | crates/polkavm-common/src/program.rs:256-297 | gives the same instruction and next offset as the slow step |
| Traversal.ParseInstruction | crates/polkavm-common/src/program.rs:1581-1591 | chooses between the two without changing the instruction |
| Traversal.Instructions.constructor | crates/polkavm-common/src/program.rs:4759-4790 | the starting state, bounded or not |
| Traversal.Instructions.Next | crates/polkavm-common/src/program.rs:4824-4876 | one step of the iterator, in place, is the specification's |
| TraversalCoverage.IteratorVisits | crates/polkavm-common/src/program.rs:4824-4876 | the unbounded iterator delivers the marked instructions, with an invalid after exactly those it can fall out of |
| TraversalCoverage.IteratorCoversAll | crates/polkavm-common/src/program.rs:4759-4876 | its whole run from offset 0 |
| TraversalCoverage.VisitorRun | crates/polkavm-common/src/program.rs:309-361 | the visitor loop terminates and delivers the marked instructions, with its own invalids |
| TraversalCoverage.WalkersAgree | crates/polkavm-common/src/program.rs:185-361 | less the invalids they add, both walkers deliver the same list |
| TraversalCoverage.VisitsAreTheMarks | crates/polkavm-common/src/program.rs:185-361 | that list is every marked offset exactly once, in order, with its decoded instruction |
| TraversalCoverage.BothDeliverTheMarks | crates/polkavm-common/src/program.rs:341-361 | all of this for any code with a zero-padded mask |
| TraversalBoundary.FalseReportIffBoundary | crates/polkavm-common/src/program.rs:201-300 | a step reports an invalid instruction where one starts exactly within 32 bytes of the end, when the next start is 25 bytes on at a multiple of 8 |
| TraversalBoundary.BothReportOnceIff | crates/polkavm-common/src/program.rs:309-361 | over a whole run, iterator and visitor report every offset once exactly when no instruction sits there; for the iterator only instructions that can fall through count |
| TraversalBoundary.OffsetReportedTwice | crates/polkavm-common/src/program.rs:201-253 | 33 code bytes with starts at 7 and 32: offset 32 is reported twice |
| CodeWriter.Prepare | crates/polkavm-common/src/writer.rs:197-259 | succeeds exactly when every dispatch symbol is a block export and every instruction is allowed; then gives dispatch jumps and code with shifted blocks |
| CodeWriter.BlockStarts | crates/polkavm-common/src/writer.rs:261-268 | block starts are 0 and the positions after block-ending instructions, in order |
| CodeWriter.FindBlocks | crates/polkavm-common/src/writer.rs:261-268 | the loop finds them |
| CodeWriter.FirstLayout | crates/polkavm-common/src/writer.rs:270-283 | every entry is encoded at its position with its block looked up |
| CodeWriter.RelaxOnce | crates/polkavm-common/src/writer.rs:286-316 | a round keeps entries encoded and of the same shape; if it changes nothing, positions are prefix sums and targets are right |
| CodeWriter.RelaxEntry | crates/polkavm-common/src/writer.rs:290-312 | one entry of a round |
| CodeWriter.Layout | crates/polkavm-common/src/writer.rs:270-316 | whatever comes out of relaxation is laid out end to end with every target resolved |
| CodeImage.BitVec.constructor | crates/polkavm-common/src/writer.rs:348-354 | starts empty |
| CodeImage.BitVec.Push | crates/polkavm-common/src/writer.rs:356-364 | appends one bit |
| CodeImage.BitVec.Finish | crates/polkavm-common/src/writer.rs:366-371 | pads with zeros to whole bytes |
| CodeImage.Emit | crates/polkavm-common/src/writer.rs:374-384 | code is the entries end to end; the mask is set exactly at their first bytes |
| CodeImage.StartsAt | crates/polkavm-common/src/writer.rs:374-384 | instruction n starts at the sum of the lengths before it and nothing starts inside it |
| CodeRoundTrip.NextIsNext | crates/polkavm-common/src/writer.rs:374-384 | the reader's scan steps from each written instruction to the next |
| CodeRoundTrip.ReadsBack | crates/polkavm-common/src/writer.rs:374-384 | the reader decodes instruction n at its position |
| CodeRoundTrip.IteratorReadsBack | crates/polkavm-common/src/writer.rs:399-447 | the unbounded iterator over emitted code gives back exactly the instructions at their positions, and one invalid at the end if the last can fall through |
| CodeSerializer.ValidAtInstruction | crates/polkavm-common/src/program.rs:4450-4480 | a written instruction is a valid jump target exactly when it starts a block |
| CodeSerializer.JumpTargetsAreBlocks | crates/polkavm-common/src/program.rs:4450-4480 | the valid jump targets of emitted code are exactly the positions of its blocks |
| CodeSerializer.BlocksAreValidTargets | crates/polkavm-common/src/writer.rs:261-316 | every block of the source lies at a valid jump target |
| CodeSerializer.BranchesHitTheirBlocks | crates/polkavm-common/src/writer.rs:270-316 | every branch target is the position of its block's first instruction |
| CodeSerializer.DispatchJumps | crates/polkavm-common/src/writer.rs:197-233 | dispatch entry n is a jump at byte 5n to its export's block |
| CodeSerializer.WriteExports | crates/polkavm-common/src/writer.rs:386-397 | exports carry the position of their block or instruction |
| CodeSerializer.SerializeCode | crates/polkavm-common/src/writer.rs:184-450 | fails exactly when the source is not buildable; otherwise all parts come from one settled layout |
| CodeSerializer.BuiltIsEmitted | crates/polkavm-common/src/writer.rs:399-447 | built code satisfies everything the reading lemmas ask for |
| CodeSerializer.JumpTableReadsBackIff | crates/polkavm-common/src/writer.rs:318-339 | entry i reads back as its block's position exactly when some block in the table has non-zero low bytes as far as that position has significant bytes, and the index fits; otherwise it reads as the position modulo a power of 256, or not at all |
| JumpTable.WriteTable | crates/polkavm-common/src/writer.rs:318-339 | entry size and table bytes as specified |
| JumpTable.EntryReadsBackIff | crates/polkavm-common/src/program.rs:4329-4346 | an entry reads back exactly when the size is not zero, covers its significant bytes and the index arithmetic fits 32 bits |
| JumpTable.SizeIsLongestRun | crates/polkavm-common/src/writer.rs:320-330 | the entry size is the longest run of non-zero low bytes and is attained |
| JumpTable.CoveredIff | crates/polkavm-common/src/writer.rs:320-330 | the size covers a position exactly when some position's run does |
| JumpTable.EntryReadsAs | crates/polkavm-common/src/program.rs:4329-4346 | what any entry of a written table reads as |
| JumpTable.WrittenEntryReadsBackIff | crates/polkavm-common/src/writer.rs:318-339 | whether it reads back, told from the positions alone |
| JumpTable.RoundPositionIsLost | crates/polkavm-common/src/writer.rs:325 | position 256 alone cannot be read; beside position 5 it reads as position 0 |
| LostEntry.JumpTableEntryLost | crates/polkavm-common/src/writer.rs:318-339 | in any serialization of 257 traps with jump table blocks 256 and 5, entry 0 reads as position 0 |
| BlobWriter.Writer.PushRawBytes | crates/polkavm-common/src/writer.rs:577-579 | appends the bytes |
| BlobWriter.Writer.PushVarint | crates/polkavm-common/src/writer.rs:589-593 | appends the encoded number |
| BlobWriter.Writer.PushBytesWithLength | crates/polkavm-common/src/writer.rs:595-598 | appends a length and the bytes |
| BlobWriter.Writer.PushSection | crates/polkavm-common/src/writer.rs:567-575 | appends a framed section, or nothing for empty contents |
| BlobWriter.Writer.OpenSection | crates/polkavm-common/src/writer.rs:539-546 | writes the section byte and five placeholder bytes |
| BlobWriter.Writer.CloseSection | crates/polkavm-common/src/writer.rs:549-564 | patches the length in place and drops the unused placeholders; an empty section disappears |
| BlobWriter.WriteImports | crates/polkavm-common/src/writer.rs:483-497 | import section: count, offsets, symbols |
| BlobWriter.WriteExports | crates/polkavm-common/src/writer.rs:499-507 | export section: count, then offset and symbol each |
| BlobWriter.WriteCode | crates/polkavm-common/src/writer.rs:509-516 | code section |
| BlobWriter.ToVec | crates/polkavm-common/src/writer.rs:464-528 | the output is the whole blob with its length patched into the header |
| BlobReader.Reader.ReadSlice | crates/polkavm-common/src/program.rs:4166-4174 | reads a slice or fails without moving |
| BlobReader.Reader.ReadVarint | crates/polkavm-common/src/program.rs:4177-4185 | reads a varint |
| BlobReader.Reader.ReadSection | crates/polkavm-common/src/program.rs:4219-4229 | reads the expected section or nothing |
| BlobReader.Reader.ReadMemory | crates/polkavm-common/src/program.rs:5188-5200 | reads the memory configuration and checks its length |
| BlobReader.Reader.ReadImports | crates/polkavm-common/src/program.rs:5205-5224 | reads the import section within its limits |
| BlobReader.Reader.SkipOptionalSections | crates/polkavm-common/src/program.rs:5233-5240 | skips unknown optional sections and terminates |
| BlobReader.FromBytes | crates/polkavm-common/src/program.rs:5160-5250 | splits a blob into sections as specified, or fails |
| BlobContents.ParseCode | crates/polkavm-common/src/program.rs:5316-5371 | code within the limits, a mask that fits it, a table of count times size bytes |
| BlobContents.LoadCode | crates/polkavm-common/src/program.rs:5316-5371 | the same, reading step by step |
| BlobContents.PaddingTestIsExact | crates/polkavm-common/src/program.rs:5361-5370 | the padding test holds exactly when no mask bit is set after the code |
| BlobContents.ParsedMaskIsValid | crates/polkavm-common/src/program.rs:5272-5371 | every blob that parses has a fitting, zero-padded mask |
| BlobContents.ImportReadsBack | crates/polkavm-common/src/program.rs:4247-4259 | the i-th import is the i-th symbol |
| BlobContents.ExportIterator.Next | crates/polkavm-common/src/program.rs:5561-5581 | delivers the next export of the list, or ends |
| BlobRoundTrip.SectionBack | crates/polkavm-common/src/program.rs:4219-4229 | a written section reads back and the cursor lands on the next section byte |
| BlobRoundTrip.PartsBack | crates/polkavm-common/src/program.rs:5160-5250 | splitting a written blob gives back its sections |
| BlobRoundTrip.CodeBack | crates/polkavm-common/src/program.rs:5316-5371 | the code section reads back |
| BlobRoundTrip.ExportsBack | crates/polkavm-common/src/program.rs:5545-5595 | the export iterator over a written section delivers the exports |
| BlobRoundTrip.ParseWritten | crates/polkavm-common/src/program.rs:5266-5371 | parsing a written blob succeeds and gives back all parts |
| BlobRoundTrip.BlobReadsBack | crates/polkavm-common/src/writer.rs:464-528 | instruction set version, sizes, data, code, mask, every import and the export list come back |
| ProgramRoundTrip.ParsedIsTraversable | crates/polkavm-common/src/program.rs:5266-5371 | the traversal results apply to whatever parses |
| ProgramRoundTrip.WrittenProgramReadsBack | crates/polkavm-common/src/writer.rs:184-528 | from source through blob and parser to the iterator: the same instructions at the same positions |
| ProgramRoundTrip.WrittenTablesReadBack | crates/polkavm-common/src/writer.rs:318-528 | through the blob as well: jump table entries read back exactly when the table keeps them, and exports name their positions |
| BinarySearch.Search | crates/polkavm-common/src/program.rs:6464-6510 | over ordered items, the same answer as a search from the front: the first equal item or the insertion point; a hit is always an equal item |
| BinarySearch.FindRange | crates/polkavm-common/src/program.rs:5691-5725 | over sorted disjoint ranges, finds the one that holds the counter exactly when there is one; the check after the search never fails |
| Fixups.UnpackKind | crates/polkavm-assembler/src/misc.rs:75-104 | offset, length and opcode bytes of a packed fixup come back |
| Fixups.Assembler.constructor | crates/polkavm-assembler/src/assembler.rs:153-161 | starts empty |
| Fixups.Assembler.ForwardDeclareLabel | crates/polkavm-assembler/src/assembler.rs:175-179 | adds an undefined label |
| Fixups.Assembler.CreateLabel | crates/polkavm-assembler/src/assembler.rs:181-188 | adds a label at the current position |
| Fixups.Assembler.DefineLabel | crates/polkavm-assembler/src/assembler.rs:190-203 | defines an undefined label at the current position |
| Fixups.Assembler.SetLabelOffset | crates/polkavm-assembler/src/assembler.rs:226-228 | moves a label |
| Fixups.Assembler.Push | crates/polkavm-assembler/src/assembler.rs:231-300 | appends the bytes and, for a label instruction, its fixup |
| Fixups.Assembler.PushRaw | crates/polkavm-assembler/src/assembler.rs:302-307 | appends bytes |
| Fixups.Assembler.Truncate | crates/polkavm-assembler/src/assembler.rs:364-373 | code and fixups become those of the pieces kept |
| Fixups.Assembler.Apply | crates/polkavm-assembler/src/assembler.rs:310-346 | resolves one fixup and touches only its own bytes |
| Fixups.Assembler.Finalize | crates/polkavm-assembler/src/assembler.rs:309-350 | fails exactly when some defined label is out of range; otherwise every piece of the history is patched in its place |
| Fixups.PatchedHitsLabel | crates/polkavm-assembler/src/assembler.rs:321-345 | a patched instruction has its opcode, and its end plus its displacement is the label |
| Fixups.FinalHitsLabels | crates/polkavm-assembler/src/assembler.rs:309-350 | so in the final code, for every label instruction of any history; all other bytes are as pushed |
| Fixups.DisplacementReads | crates/polkavm-assembler/src/assembler.rs:333-345 | a displacement in range reads back as the distance |
| LabelInstructions.LabelPieceIsGood | crates/polkavm-assembler/src/amd64.rs:1951-1988 | every label instruction has room for its opcode and displacement |
| LabelInstructions.PatchedIsRelative | crates/polkavm-assembler/src/amd64.rs:1930-1988 | a patched label instruction is the plain relative instruction for that distance |
| LabelInstructions.LeaReachesLabel | crates/polkavm-assembler/src/amd64.rs:1982-1988 | a patched lea computes the address of its label |
| Amd64Correct.RexSet | crates/polkavm-assembler/src/amd64.rs:5-10 | setting a REX bit keeps the others and the byte a REX byte |
| Amd64Correct.MemFields | crates/polkavm-assembler/src/amd64.rs:592-681 | every memory operand is put into the ModRM, SIB, REX and displacement fields its layout asks for |
| Amd64Correct.OpcodeBack | crates/polkavm-assembler/src/amd64.rs:733-771 | REX or VEX extension bits and the opcode decode |
| Amd64Correct.PrefixesBack | crates/polkavm-assembler/src/amd64.rs:733-752 | segment and address-size prefixes decode |
| Amd64Correct.OperandMeans | crates/polkavm-assembler/src/amd64.rs:262-317 | the decoded operand has the address the operand means, 32-bit wrap included |
| Amd64Correct.AddressIsMeant | crates/polkavm-assembler/src/amd64.rs:592-784 | for every operand, register contents and builder state, decoding the emitted bytes gives the meant address, segment, opcode and register field |
| Amd64Correct.AddressIsMeantThenExtended | crates/polkavm-assembler/src/amd64.rs:694-698 | also when the opcode extension is set after the operand |
| Amd64Correct.DirectIsMeant | crates/polkavm-assembler/src/amd64.rs:575-590 | a register operand decodes as that register |
| InstBuf.Buffer.constructor | crates/polkavm-assembler/src/misc.rs:117-119 | starts empty |
| InstBuf.Buffer.Append | crates/polkavm-assembler/src/misc.rs:127-130 | appends one byte |
| InstBuf.Buffer.AppendPacked | crates/polkavm-assembler/src/misc.rs:133-136 | appends the low bytes of a number |
| InstBuf.Buffer.EncodeInto | crates/polkavm-assembler/src/amd64.rs:733-784 | appends exactly the bytes of the instruction |
| MemoryMap.AlignIsRoundUp | crates/polkavm-common/src/utils.rs:169-189 | alignment is rounding up to the next multiple, and fails exactly when that is out of range |
| MemoryMap.MemoryMapBuilder.constructor | crates/polkavm-common/src/abi.rs:51-59 | all sizes zero |
| MemoryMap.MemoryMapBuilder.Build | crates/polkavm-common/src/abi.rs:81-172 | succeeds exactly for a valid page size and rounded sizes of at most 2^32 - 5 * 64 KiB; regions are page aligned, disjoint and separated by 64 KiB guards; read-write data starts one largest page above the rounded read-only data, auxiliary data and stack end at fixed distances from the top, all at multiples of 64 KiB; a full heap ends exactly 64 KiB below the stack's reserved space |

## Left out

- CodeWriter.Layout: takes a bound on the number of relaxation rounds and claims nothing about reaching a steady state,
  since lengths can both grow and shrink; what holds on exit is stated in full.
- Fixups.Assembler.Truncate: only at the end of a piece; the source also lets a caller cut an instruction in half,
  after which its fixup would point outside the code.
- PipelineExactRuns.CostIsExact: its condition is about the run; `CostIsExactByAlu` and
  `CostIsExactForQuickBlocks` are what a caller can check. Only a single tick has an if and only if: after a skip that
  was not exact, later cycles can make up for it.
- GasSimulator.Simulator.DispatchGeneric: latency of at least 1 is required; an instruction with latency 0 and a
  destination would never release it.
- BlobReader.FromBytes: tells success from failure, not which of the error messages is reported.
- BinarySearch.FindRange: stops at the range found; reading the line program behind it is not modelled.
- Blake3Hasher.Hasher.Update: messages up to 2^64 bytes; key derivation and keyed constructors only choose key and flags.
- InstBuf.Buffer.EncodeInto: the instruction must fit the sixteen bytes of the buffer.
- Vector intrinsics: each is given its lane-wise meaning, bit masks over slots are sets.
- Tracer events, timelines and the reverse dependency table of the simulator, which do not affect cost.
- The cost table per opcode, cache models and branch prediction costs; any cost within the stated bounds is covered.
- The 32-bit cycle counter's overflow, which `PipelineRun.BlockWithinBudget` bounds.
- The compression function of BLAKE3 and its security; it is a parameter.
- The concrete opcode numbers of the four instruction sets.
- Custom sections when writing, and the contents of debug sections when reading.
- Bounded iteration beyond single steps of the iterator.
- Text assembler, disassembler, formatter, derive macros, linker and ELF reading, interpreter and recompiler.
- Raw pointers, reference-counted byte buffers and capacity reservation; buffers are sequences or arrays.
- Immediates, opcodes and operand sizes of amd64 instructions beyond their bytes; only addressing is decoded.
