# Verified model of melonDS front-end and device logic

A model in Dafny of those parts of the melonDS emulator (a Nintendo DS and DSi emulator) where several
functions have to agree with each other, with proofs that they do. It follows the C++ closely: classes whose
methods update the same fields, the same loops, the same branches and constants.
`dafny verify dfyconfig.toml` checks everything.

## What is modelled

**The JIT front end.** `RegisterCache` is the allocator that brings 16 guest registers into a few native ones,
`NativeMapping` holds its bookkeeping facts, `EmittedCode` gives the copies it emits a meaning, `KnownConstants` says
what the compiler knows of constants, and `CompiledBlock` is the compiler's loop over a block. The allocator is correct
without conditions: `CompiledBlock.AllocationRefines` says of every block that, with whatever was kept in natives, left
unloaded or evicted, it leaves r0 to r14 and the rest of the world as its instructions' codes do one after the other.
That this is what the instructions themselves do has a condition, because code is specialised to known constants (a
load or store takes its base for one, `src/ARMJIT_x64/ARMJIT_LoadStore.cpp:139-143`) and the allocator does not forget
what it knows of r8 to r14 when an MSR changes the mode (`src/ARMJIT_RegisterCache.h:129-131`).
`CompiledBlock.RefinesIff` gives it exactly: a block does what direct execution does, whatever its codes and the world,
if and only if no instruction uses a constant whose register has been exchanged since. `LiteralsAreTrue` says the same
of each constant, `BlockRefines` and `SideExitRefines` are the positive half for the end of a block and every early
exit, and `ExchangedConstants.ExchangedConstantUsed` is a block of three instructions that loads the wrong word.
`InstrInfo` models the decoder that supplies the register and flag sets the allocator and both block analyses rely on.
That these sets are right is proved against the interpreter: `DecodedTransfers` for single and block transfers as
`SingleTransfers` and `BlockTransfer` execute them, `DecodedOperands` and `DecodedThumb` for all that computes results
from operands, whatever it computes, and `DecodedFlags` and `DecodedThumbFlags` for the flags. Two instructions do not
do what is decoded of them: an MSR to a saved status register is said to write the flags of the current one for
certain (`src/ARM_InstrInfo.cpp:463-464`, `InstrInfo.MsrObeysIff`), and multiplication on the ARM7 clears the carry,
which it is not said to write (`src/ARMInterpreter_ALU.cpp:774`, `DecodedFlags.FlagsObeyIff`).

`FlagLiveness` is the pass over the flags. `LeftAlike` says that storing only the flags it asks for changes nothing:
the block is left at the same place, with the same flags and everything else the same, through side exits and calls
of the interpreter too; `InvisibleIff` that it asks for no flag too many. `InstrInfo.SpsrWriteHidesFlags` shows what
the MSR above does to it. `IdleLoop` is the test for idle loops, over registers, flags, memory and status.
`IdleLoop.IdleIff` says which loops are idle, `AcceptedIff` which of those the test accepts are not, and
`IdleInputs` gives a loop for each of its conditions that only this condition keeps out, and three that pass without
being idle: one with a swap, which is decoded as a load and not as a store (`src/ARM_InstrInfo.cpp:523-532`), one that
carries a flag over, and one that writes a register under a condition.

**The block cache.** `BlockIndex` gives the four indexes over compiled blocks (start-address maps, range lists
with their masks, lookup table, restore candidates) as one value and every operation as a step on it,
`BlockCache` is the class that performs the operations, `BlockSource` the loop that fetches a block and collects
what it covers, `BlockSafety` proves what every run keeps, and `AddressTranslation` that the two ways of translating
an address meet in the same lookup slot. `BlockCoherence.RunCoherent` is the outcome: after any run, a lookup that
hits reaches the one live block for that address and CPU, and that block was compiled from what is in memory now;
`GuestMemory` and `GuestStores` say it of the guest's own memory and stores, and `HitContents.HitIsFetched` of single
instructions: each one of a block that is hit is what the CPU fetches at its address, and each literal folded on the
first try is what the interpreted load reads, at the address the interpreter computes for it (`LiteralAddresses`).
The code does not meet this without conditions, of which there are four.

- `CompileBlock` restores a retired block without asking which CPU it was made for (`src/ARMJIT.cpp:847-870`),
  although blocks are taken out of the map of the CPU they were made for. `BlockSafety.StepConsistent` gives the
  exact condition on a step, `CrossRestores.SharedCodeBreaksOwnership` a run of four steps that ends with a retired
  block still in a map, and `CrossRestores.OneCpuRunsSound` a condition on whole runs that excludes it.
- Which literals are noted while fetching and which are folded while compiling are two different tests, and they
  disagree (`LiteralLoads.SlipsWhen`): for signed loads (`src/ARMJIT.cpp:265-290` does not know them), for invalid
  literals when the cache is reset in between, and for Thumb loads of invalid literals at addresses that are 2 modulo
  4, which are tried a second time with r15 unaligned (and then fold the word turned by sixteen bits). A block that
  folds what was not noted can go stale, with a single store (`StaleLiterals.LdrshGoesStale` and three more inputs).
  `BlockSource.CoversAllIff` and `ClosedIff` say for which blocks this matters, `RunCoherent` holds for runs without
  such blocks, `StaleBuilds.UnclosedGoesStale` shows of any such block how it goes stale, and
  `StaleLiterals.PlainIsCareful` gives a condition that can be read off the instructions.
- Stores are checked by local address, and in the ARM9's video memory a local address is no more than the lowest 20
  bits (`src/ARMJIT_Memory.cpp:1193-1195`). `GuestMemory.IdentifiesIff` proves that local addresses identify the cells
  behind them in every region but this one, and in this one exactly if no bank is mapped there.
  `StaleVideo.VideoGoesStale` is a store half a megabyte away from a block that overwrites it and leaves it live.
  `RunCoherent` is for runs in which no code or folded literal is in video memory.
- What region an address is in is decided twice, by the JIT (`src/ARMJIT_Memory.cpp:1240-1356`) and by the bus functions
  (`src/DSi.cpp`, `src/NDS.cpp`), which also name the region a store is checked in. `CodePlaces.SameRegionIff` proves
  that they agree except about windows of new WRAM: the JIT does not ask whether a CPU may use them (bit 25 of
  SCFG_EXT), and does not look for the ARM7's from 0x03800000 on, where the bus does (`src/DSi.cpp:1957-1958`).
  `StaleWindows.WindowGoesStale` shows of whatever code is in such a window that a store to its own address leaves its
  block live. `GuestStores.HitIsCurrent` is for configurations without code there.

**The cryptography of the DSi.** `CcmEngine` is the AES engine with its two queues, fed and drained in any
order; its class invariant says at every moment what has been put out, and `CcmRoundTrip` reads it at the end of
a transfer in the terms of RFC 3610, whose first block and counter blocks `Ccm` gives field by field. `NandFat` and
`EsContainer` are the in-place routines for the NAND; `EsAsCcm` says of the container, byte by byte, what of the RFC it
is. The block cipher is an arbitrary function. Two laws have a limit, and are proved as equivalences: a part of the
file system image reads back if and only if the 32-bit block counter does not wrap between the start of the write
and the start of the read (`src/DSi_NAND.cpp:210` truncates it), and a sealed container is accepted if and only
if it is shorter than 2^24 bytes, the footer having three bytes for the length.

**Smaller machinery of the same kind.** The new shared WRAM's map and broadcast writes (`NewWram`), sliced DMA
(`Dma`, `Ndma`, `DmaUnits`), banked registers, interrupts and block transfers (`RegisterBanks`, `BlockTransfer`,
`TransferPlaces`), the protection unit's page maps (`ProtectionMap`), the table-driven CRC (`Crc32`) and the cheat
interpreter (`CheatVm`, `CheatOps`). Of the last one law holds under a condition only: behind an IF within an IF the
condition is that of the outer one again if and only if the outer one holds (`CheatOps.NestedIff`). And interpreter
and compiler disagree on one thing about block loads, whether the ARM7 writes back a base that is in the list and not
the last of it (`TransferPlaces.JitAgreesIff`).

## Conventions

A bit mask is a set, `x & (2^k - 1)` is `x % 2^k`, bit `k` of a number is `MachineWords.Bit`, and 32-bit sums that can
wrap are taken modulo 2^32. An error return is a result value. An array the source updates in place is an array here; a
map or a list is a field the methods reassign. Where the meaning of any instruction is needed it is a parameter,
constrained by what decoding promises of it (`EmittedCode.Obeys`, `FlagLiveness.Obeys`, `IdleLoop.Obeys`).

## Model

| member | source | states |
|---|---|---|
| RegisterCache.Cache.UnloadRegister | src/ARMJIT_RegisterCache.h:55-66 | saves the register exactly if it is dirty, frees its native and keeps the mapping injective with `NativeRegsUsed` its exact image |
| RegisterCache.Cache.LoadRegister | src/ARMJIT_RegisterCache.h:68-89 | takes the first free native of the allocation order, which exists whenever fewer registers are loaded than natives are available, so the abort is not reached |
| RegisterCache.Cache.PrepareExit | src/ARMJIT_RegisterCache.h:107-112 | the saves of a side exit put every guest register r0-r14 into its memory slot and leave the allocator alone |
| RegisterCache.Cache.Flush | src/ARMJIT_RegisterCache.h:114-119 | afterwards nothing is loaded, dirty or a known constant, and what was emitted takes storage there |
| RegisterCache.RankRegisters | src/ARMJIT_RegisterCache.h:133-145 | futures and ranks are exactly the registers and the numbers of instructions from `i` on that need them |
| RegisterCache.Cache.LeastRanked | src/ARMJIT_RegisterCache.h:159-168 | the evicted register is loaded, not necessary and of lowest rank; there is none only if all loaded ones are necessary |
| RegisterCache.Cache.MakeRoom | src/ARMJIT_RegisterCache.h:157-174 | the eviction loop ends with room for all that is to be loaded, never fails its assertion, keeps every necessary register, and evicts no register that outranks a survivor |
| RegisterCache.Cache.Prepare | src/ARMJIT_RegisterCache.h:122-200 | after it all necessary registers are loaded, only those certainly overwritten and not read are without their value, constants about to be overwritten are forgotten, dirty registers lie within the loaded ones and include the loaded destinations, and storage still represents the guest registers |
| NativeMapping.SomeNativeFree | src/ARMJIT_RegisterCache.h:68-89 | with an injective mapping whose image is `NativeRegsUsed`, fewer loaded registers than natives leave a native free |
| NativeMapping.VictimExists | src/ARMJIT_RegisterCache.h:156-172 | if loaded and missing registers outnumber the natives but the necessary ones do not, some loaded register is not necessary |
| EmittedCode.SavesRestoreMemory | src/ARMJIT_RegisterCache.h:107-112 | saving the dirty registers leaves in memory what each guest register is, whether it was loaded or not |
| EmittedCode.CompiledMatchesDirect | src/ARMJIT_RegisterCache.h:176-199 | one compiled instruction on native registers and memory slots keeps them in step with direct execution, if it reads only its sources and writes all its destinations or none; one that changes the mode exchanges slots as well, and loaded registers with them |
| KnownConstants.KnownSince | src/ARMJIT_RegisterCache.h:91-131 | whatever is known of a register an instruction left there, after which it was no destination and the interpreter was not called |
| KnownConstants.KnownStill | src/ARMJIT_RegisterCache.h:91-131 | and what an instruction left is known until then |
| KnownConstants.KnownIsTrueIff | src/ARMJIT_RegisterCache.h:129-131 | a known constant is the register's value in every run, of every code that obeys decoding, if and only if no instruction has exchanged the register with another bank since |
| KnownConstants.KnowingChangesNothing | src/ARMJIT_x64/ARMJIT_LoadStore.cpp:139-143 | if no constant is used after such an exchange, code specialised to what is known gives the registers and the world that direct execution gives |
| KnownConstants.HarmlessIff | src/ARMJIT_x64/ARMJIT_LoadStore.cpp:139-143 | and only if |
| CompiledBlock.CompileInstr | src/ARMJIT_x64/ARMJIT_Compiler.cpp:716-821 | one turn of the compiler loop, with whatever registers the instruction's own code unloads in `PushRegs`, yields a segment fit to run from the layout before to the layout after |
| CompiledBlock.PrepareInstr | src/ARMJIT_x64/ARMJIT_Compiler.cpp:64-93 | unloading any registers that are not about to be overwritten leaves a layout the compiled instruction can run on, in which just the constants of its destinations are forgotten |
| CompiledBlock.CompileBlock | src/ARMJIT_x64/ARMJIT_Compiler.cpp:691-840 | for every block under 1000 instructions the segments fit together from nothing loaded to nothing loaded, and each knows the constants left and not forgotten before it |
| CompiledBlock.RunsMatch | src/ARMJIT_x64/ARMJIT_Compiler.cpp:716-821 | between any two instructions of any block each guest register has the value of its native if loaded and of its memory slot otherwise, as the instructions' codes left it |
| CompiledBlock.AllocationRefines | src/ARMJIT_x64/ARMJIT_Compiler.cpp:714-823 | every compiled and flushed block leaves r0-r14 in memory, and the world, exactly as the codes of its instructions do on a plain register file |
| CompiledBlock.BlockRefines | src/ARMJIT_x64/ARMJIT_Compiler.cpp:714-823 | and as direct execution does, if no constant is used after an exchange of its register, in every world in which folded literals have their values |
| CompiledBlock.RefinesIff | src/ARMJIT_x64/ARMJIT_Compiler.cpp:714-823 | the exact condition on a block: it does what direct execution does for all codes that obey decoding if and only if no constant is used after an exchange of its register |
| CompiledBlock.SideExitRefines | src/ARMJIT_x64/ARMJIT_Compiler.cpp:653-667 | every side exit after its saves leaves what direct execution does, under the same condition up to it |
| CompiledBlock.LiteralsAreTrue | src/ARMJIT_RegisterCache.h:91-105 | a register the compiler takes for a constant, a folded literal among them, has that value when the instruction starts if and only if it has not been exchanged since |
| ExchangedConstants.BlockDecoded | src/ARM_InstrInfo.cpp:421-562 | the registers of the three words of the block below are those decoding finds |
| ExchangedConstants.BlockCompilable | src/ARMJIT_x64/ARMJIT_Compiler.cpp:691-840 | and the block is one the compiler takes |
| ExchangedConstants.MsrObeys | src/ARM.cpp:448-525 | the exchange of banks is an instruction that obeys its decoded information |
| ExchangedConstants.ExchangedConstantUsed | src/ARMJIT_x64/ARMJIT_LoadStore.cpp:243-257 | `MOV r13, #0x2000000`, `MSR CPSR_c, #0xD2`, `LDR r0, [r13]`, compiled by the loop and run from supervisor mode with the other stack pointer two bytes further on, loads the word with its halves the wrong way round |
| InstrInfo.DecodeArm | src/ARM_InstrInfo.cpp:421-562 | for every word and CPU the decoded register and flag sets are those the fields, list and condition name; a block ends exactly if r15 is written or at a barrier |
| InstrInfo.DecodeThumb | src/ARM_InstrInfo.cpp:329-420 | the same for Thumb, with lists, high registers, literals and conditional branches |
| InstrInfo.ArmFitsCache | src/ARM_InstrInfo.cpp:534-550 | optional registers are among sources and destinations, and at most seven registers are necessary, whatever the list: as many as the host with the fewest natives has (`src/ARMJIT_x64/ARMJIT_Compiler.cpp:39-56`) |
| InstrInfo.ThumbFitsCache | src/ARM_InstrInfo.cpp:399-412 | the same for Thumb |
| InstrInfo.ArmConditional | src/ARM_InstrInfo.cpp:552-557 | a conditional instruction is certain to write no flag, may write those it would, and the flags it is said to read decide whether it executes |
| InstrInfo.MsrObeysIff | src/ARM_InstrInfo.cpp:463-464 | an MSR writes the flags it is said to write for certain if and only if it is conditional or does not write the flags of a saved status register |
| InstrInfo.SpsrWriteHidesFlags | src/ARM_InstrInfo.cpp:463-464 | `MSR SPSR_fsxc, r1` between a comparison and a branch: the flag pass lets the comparison store nothing, and the branch sees other flags |
| InstrInfo.StoreIsSeen | src/ARM_InstrInfo.cpp:523-532 | an instruction is decoded as a store if and only if it stores and does not load as well |
| InstrInfo.ImmediateLoadIsLiteral | src/ARM_InstrInfo.cpp:526-532 | a load with an immediate offset is one of a literal if and only if its base is r15 |
| InstrInfo.ConditionMeans | src/ARM.cpp:90-108 | the condition table agrees with the meaning of all fourteen conditions for all flags |
| InstrInfo.ConditionReads | src/ARM_InstrInfo.cpp:320-327 | a condition depends on no flag but those listed for it |
| DecodedTransfers.SingleObeys | src/ARMInterpreter_LoadStore.cpp:51-325 | every load and store of a word, halfword or byte with an immediate offset, of either indexing, with its writeback, changes no register but the destinations decoded of it, depends on none but the sources, and writes all its destinations or none |
| DecodedTransfers.ListObeys | src/ARMInterpreter_LoadStore.cpp:393-528 | the same of every LDM and STM without the S bit, on either CPU, the base or r15 in the list or not |
| DecodedOperands.ArmObeys | src/ARM_InstrInfo.cpp:76-202 | the same of data processing, multiplication and the other classes of ARM instructions that compute results from operands, whatever they compute, with the operands where the interpreter takes them from |
| DecodedThumb.ThumbObeys | src/ARM_InstrInfo.cpp:238-312 | the same of the Thumb classes, with the pc-relative load's r15 a constant where literals are folded |
| DecodedThumb.TransferObeys | src/ARMInterpreter_LoadStore.cpp:694-796 | the same of PUSH, POP, STMIA and LDMIA |
| DecodedFlags.FlagsObeyIff | src/ARMInterpreter_ALU.cpp:761-775 | data processing and multiplication look at the flags they are said to read, write those they are certain to write and no others than they may, if and only if they are not a flag-setting multiplication on the ARM7 |
| DecodedThumbFlags.FlagsObeyIff | src/ARMInterpreter_ALU.cpp:1164-1540 | the same of Thumb instructions: all but multiplication on the ARM7 |
| FlagLiveness.FloodFillSetFlags | src/ARMJIT.cpp:247-263 | adds to each instruction exactly those of its possible writes that nothing certain after it, up to the demand, hides; the early return changes nothing |
| FlagLiveness.SetFlagsOfBlock | src/ARMJIT.cpp:816-896 | after all calls for a block a flag is set for an instruction if and only if the instruction may write it and a reader or the end of the block may see that write |
| FlagLiveness.LiveFlagsAgree | src/ARMJIT.cpp:247-263 | for instructions that look at the flags they are said to read and write what they are said to write, storing only the set flags gives, before every instruction, the same world and the same value of every flag that is live there |
| FlagLiveness.DeadWritesInvisible | src/ARMJIT.cpp:816-821 | every compiled instruction sees the same values of the flags it reads as with all writes stored; before a side exit, before an interpreted instruction and at the end of the block all flags are the same |
| FlagLiveness.LeftAlike | src/ARMJIT_x64/ARMJIT_Compiler.cpp:653-667 | so with side exits and interpreted instructions that may leave the block, it is left at the same place, with the same flags and the same world, or not at all |
| FlagLiveness.InvisibleIff | src/ARMJIT.cpp:816-896 | storing some of the flags only is invisible, whatever the instructions do, if and only if they include those the pass asks for |
| IdleLoop.IsIdleLoop | src/ARMJIT.cpp:353-382 | accepts exactly the bodies without stores, without system accesses in ARM state and without inner branches, in which no register carried into an iteration is written |
| IdleLoop.SecondIterationIdle | src/ARMJIT.cpp:353-382 | if nothing is passed from one iteration to the next, in a second one every instruction does what it did in the first, and registers, flags, memory and status stay as the first left them |
| IdleLoop.SpinningIsIdle | src/ARMJIT.cpp:353-382 | however often it spins it gives what one iteration gives |
| IdleLoop.PassedMatters | src/ARMJIT.cpp:353-382 | a register, flag, memory or status that is passed on can make the second iteration another one |
| IdleLoop.IdleIff | src/ARMJIT.cpp:353-382 | a loop repeats its first iteration, whatever its instructions do, if and only if none but the last branches and nothing is passed on |
| IdleLoop.AcceptedIff | src/ARMJIT.cpp:353-382 | a loop the test accepts does so if and only if none of the things the test does not look at is passed on: a flag, memory written by a swap, or a register whose write before the read is conditional |
| IdleLoop.IdleAccepted | src/ARMJIT.cpp:353-382 | and one that does so, and neither stores nor accesses the system, is accepted, if no instruction reads registers for nothing |
| IdleInputs.StoresMatter | src/ARMJIT.cpp:363-364 | a loop that counts in memory meets all other conditions and is not idle |
| IdleInputs.SystemMatters | src/ARMJIT.cpp:365-366 | nor is one that changes the status |
| IdleInputs.BranchesMatter | src/ARMJIT.cpp:367-368 | nor one with a branch in the middle |
| IdleInputs.RegistersMatter | src/ARMJIT.cpp:373-376 | nor one that counts in a register |
| IdleInputs.WaitingIsIdle | src/ARMJIT.cpp:353-382 | waiting for a word of memory is accepted and idle |
| IdleInputs.SwapOverlooked | src/ARM_InstrInfo.cpp:523-532 | `SWP r0, r2, [r1]`; `CMP r0, #0`; `BNE` is accepted and not idle |
| IdleInputs.FlagsOverlooked | src/ARMJIT.cpp:353-382 | nor is `ADC`; `CMP`; `BNE`, which is accepted too |
| IdleInputs.ConditionOverlooked | src/ARMJIT.cpp:353-382 | nor is `MOVEQ r3`; `ADD` of r3; `MOV r3`; `BNE` |
| BlockCache.Cache.RetireJitBlock | src/ARMJIT.cpp:481-493 | the block becomes the candidate for its hash and a former candidate is freed |
| BlockCache.Cache.RemoveFromOthers | src/ARMJIT.cpp:992-1012 | the block leaves the list of every other range it is in, and a list left empty loses its mask |
| BlockCache.Cache.Drop | src/ARMJIT.cpp:969-1027 | one block leaves lists, lookup table and map and is retired, or freed if a literal of it was overwritten |
| BlockCache.Cache.InvalidateByAddr | src/ARMJIT.cpp:937-1029 | the loop is the sweep over the list of the 512-byte range, and keeps the indexes consistent |
| BlockCache.Cache.CheckAndInvalidate | src/ARMJIT.h:58-64 | invalidates if the granule's mask bit is set, and does nothing otherwise; keeps the indexes consistent |
| BlockCache.Cache.LookUpBlock | src/ARMJIT.cpp:1065-1071 | hits if and only if the slot's tag is the address and CPU asked for |
| BlockCache.Cache.ClearRanges | src/ARMJIT.cpp:1132-1138 | empties exactly the ranges of the block |
| BlockCache.Cache.ResetBlockCache | src/ARMJIT.cpp:1112-1157 | empties every index and every range a live block is in, frees all blocks, and keeps the indexes consistent |
| BlockCache.Cache.Enter | src/ARMJIT.cpp:910-934 | lists the block in all its ranges with its masks and enters it into map and lookup table |
| BlockCache.Cache.RestoreOrBuild | src/ARMJIT.cpp:847-934 | the candidate with the hash is restored if start, literals, ranges and masks match, and given up for a new block otherwise |
| BlockCache.Cache.CompileBlock | src/ARMJIT.cpp:532-935 | fetches, then re-enters a live block, restores a matching candidate or builds and registers a new block, also when the compiler resets the cache on the way; keeps the indexes consistent unless the candidate was made for the other CPU |
| BlockSource.AddCode | src/ARMJIT.cpp:616-635 | one granule is added, all others stay, though the ranges are reordered |
| BlockSource.AddLiteral | src/ARMJIT.cpp:715-723 | one granule is added for a literal |
| BlockSource.CollectRanges | src/ARMJIT.cpp:600-728 | the collected ranges are aligned, distinct and not empty, a granule is in a mask if and only if an instruction or noted literal lies in it, and the literals and their words are those noted |
| BlockSource.GatherBlock | src/ARMJIT.cpp:844-891 | everything the rest of CompileBlock, and all that is proved of it, needs of a block's data |
| LiteralAddresses.NotedIsAccessed | src/ARMJIT.cpp:265-290 | for every literal load the decoder knows, the noted address is the one the interpreted instruction accesses, offset added or subtracted by bit 23 |
| LiteralAddresses.FoldedIsAccessed | src/ARMJIT_x64/ARMJIT_LoadStore.cpp:114-128 | and so is the address whose word the compiler folds on the first try, for signed loads too |
| LiteralAddresses.AccessedMeans | src/ARMInterpreter_LoadStore.cpp:51-53 | which lies as far above or below r15 as bits 0 to 11 (or the two nibbles) say, modulo 2^32 |
| LiteralLoads.TriesDecoded | src/ARMJIT.cpp:265-290 | the address at which a literal is noted and the one at which the compiler looks for it are the same |
| LiteralLoads.SecondTryNear | src/ARMJIT_x64/ARMJIT_LoadStore.cpp:808-814 | a Thumb load that could not be folded is tried again two bytes further on if it stands at an address that is 2 modulo 4, in the same word |
| LiteralLoads.SecondTryTurned | src/ARMJIT_x64/ARMJIT_LoadStore.cpp:808-814 | that second try folds the word with its halves exchanged: the right value if and only if they are equal |
| LiteralLoads.SlipsWhen | src/ARMJIT_x64/ARMJIT_LoadStore.cpp:114-128 | a literal is folded without having been noted if and only if it is loaded with sign, or had been invalid and is so no more, or is invalid and folded on the second try |
| LiteralLoads.SlipsWithoutReset | src/ARMJIT_x64/ARMJIT_LoadStore.cpp:70-128 | without a reset while compiling only the first and the last of these happen |
| BlockSource.HashedRead | src/ARMJIT.cpp:703-728 | whatever is hashed lies in a granule that was read |
| BlockSource.ClosedIff | src/ARMJIT.cpp:703-728 | all a block's code depends on is hashed if and only if what slips is hashed for another reason |
| BlockSource.CoversAllIff | src/ARMJIT.cpp:703-728 | a block covers all its code depends on if and only if every literal that slips lies in a granule that was read anyway |
| BlockSafety.RemoveByValueElements | src/TinyVector.h:89-121 | removing by value with the last element moved in takes out exactly that element |
| BlockSafety.SweepSafe | src/ARMJIT.cpp:946-1028 | the sweep over a range leaves its list empty, drops exactly the blocks that were on it and touches no other lookup slot |
| BlockSafety.InvalidateSafe | src/ARMJIT.cpp:937-1029 | keeps all indexes consistent and drops exactly the blocks with code in the 512-byte range |
| BlockSafety.ResetSafe | src/ARMJIT.cpp:1112-1157 | from every consistent state all lists are empty afterwards and every block ever made is freed |
| BlockSafety.RegisterSafe | src/ARMJIT.cpp:910-934 | registering an unowned block for its own CPU keeps all indexes consistent |
| BlockSafety.NeverRemapped | src/ARMJIT.cpp:545-566 | with a fixed mapping the branch for remapped memory is never taken |
| BlockSafety.CrossRestoreBreaks | src/ARMJIT.cpp:847-870 | restoring a block made for the other CPU always leaves the maps inconsistent |
| BlockSafety.StepConsistent | src/ARMJIT.cpp:532-1157 | a compile, store or reset keeps all indexes consistent if and only if it does not restore a block for the other CPU |
| BlockSafety.RunConsistent | src/ARMJIT.cpp:532-1157 | so every state of every run without such a restore is consistent |
| BlockSafety.OneOwner | src/ARMJIT.cpp:481-493 | every block made is live, a candidate or freed, only one of them, and no candidate or freed block is on a list |
| BlockSafety.LookupHitsLive | src/ARMJIT.cpp:1065-1071 | a hit is the entry point of the live block with that start address and CPU |
| BlockSafety.CompiledIsFound | src/ARMJIT.cpp:932-934 | the lookup after a compile hits |
| BlockSafety.StoreDropsCode | src/ARMJIT.h:58-64 | after a store no live block covers its granule; blocks outside its 512-byte range stay |
| BlockSafety.StoreNotesLiteral | src/ARMJIT.cpp:977-991 | a store to a literal of a live block that covers it makes the literal invalid |
| BlockSafety.StepGrows | src/ARMJIT.cpp:532-1157 | no step makes a block but the one it builds, or takes back a freed one, and only a reset forgets invalid literals |
| BlockSafety.CompileLive | src/ARMJIT.cpp:847-934 | compiling brings to life only the new block or the candidate with its hash |
| BlockCoherence.RestoredCurrent | src/ARMJIT.cpp:847-870 | a candidate whose hashes are those of what has just been read was made from what is in memory, though other literals may have become invalid since |
| BlockCoherence.RunCoherent | src/ARMJIT.cpp:532-1157 | in every run in which all built blocks depend only on what was hashed and is not in video memory, every live block, and so every hit, was compiled from what is in memory now; a restored one too |
| CodePlaces.SameRegionIff | src/ARMJIT_Memory.cpp:1240-1356 | the JIT puts an address in the region the bus puts it in if and only if it is not in a window of new WRAM the CPU may not use, nor in one of the ARM7's from 0x03800000 on that it may |
| CodePlaces.UsuallyInPlace | src/ARMJIT_Memory.cpp:1240-1356 | so they agree on a DS, and on a DSi that lets both CPUs use new WRAM and ends the ARM7's windows there |
| StaleWindows.WindowGoesStale | src/DSi.cpp:1939-2088 | whatever instruction is compiled in such a window, a store of the same CPU to its address is checked elsewhere: the block is hit, made from what was there before |
| StaleWindows.WindowsExist | src/DSi.cpp:1462-1509 | there are configurations with such windows of either kind |
| GuestMemory.SameLocal | src/ARMJIT_Memory.cpp:1176-1238 | addresses with one local address in the region the bus puts them in name the same cells of memory, for both CPUs, except in the ARM9's video memory |
| GuestMemory.OtherLocal | src/ARMJIT_Memory.cpp:1176-1238 | addresses with different local addresses have no cell in common, except there |
| GuestMemory.SeenTwice | src/GPU.h:219-260 | for every address of the ARM9's video memory that shows a bank there is another for which the local address tells the wrong thing |
| GuestMemory.IdentifiesIff | src/ARMJIT_Memory.cpp:1193-1195 | so local addresses identify cells exactly in the regions other than this one, and in this one if nothing is mapped there |
| GuestStores.StoreSeen | src/NDS.cpp:2150-2192 | where JIT and bus agree on regions, a store to a word, of either CPU, changes nothing either CPU reads outside the granule it is checked for, but in video memory |
| GuestStores.GuestStore | src/NDS.cpp:2150-2192 | so it is a store as the block cache takes it |
| GuestStores.UncheckedStore | src/NDS.cpp:2150-2192 | and one that is not checked changes nothing code can be made from |
| GuestStores.HitIsCurrent | src/ARMJIT.cpp:532-1157 | after such a run, on a configuration where code is in the region the bus shows, whatever is hit was made from what either CPU reads now at every address of what it was made from |
| HitContents.HitIsFetched | src/ARMJIT.cpp:532-1157 | after such a run every instruction of a block that is hit is what the CPU fetches at its address now, and every literal folded on the first try is what the interpreted load reads now |
| StaleVideo.MirrorsMislead | src/ARMJIT_Memory.cpp:1193-1195 | 0x6000000 and 0x6080000 show one cell and have two local addresses, 0x6000000 and 0x6200000 the other way round |
| StaleVideo.VideoGoesStale | src/ARMJIT_Memory.cpp:1193-1195 | a block compiled at 0x6000000 is live and hit after a store at 0x6080000 to the same cell |
| StaleLiterals.PlainIsCareful | src/ARMJIT.cpp:703-728 | a block outside video memory is built with care, as `RunCoherent` asks, if it loads no literal with sign and, where the cache is reset meanwhile or a Thumb load stands at an address that is 2 modulo 4, none that is invalid |
| StaleLiterals.SurvivesIff | src/ARMJIT.h:58-64 | a store spares a live block if and only if no code is known in the granule, or none of the block's in the 512-byte range |
| StaleLiterals.StoreMisses | src/ARMJIT.h:58-64 | if a block depends on a halfword in whose granule no code is known, the first store to it leaves the block hit with the old value |
| StaleLiterals.LdrshGoesStale | src/ARMJIT_x64/ARMJIT_LoadStore.cpp:699-736 | so it happens to `LDRSH r0, [pc, #8]`, compiled in an empty cache |
| StaleLiterals.ResetGoesStale | src/ARMJIT_x64/ARMJIT_Compiler.cpp:693-702 | and to `LDR r0, [pc, #8]` of an invalid literal if the cache is reset while it is compiled |
| StaleLiterals.ThumbGoesStale | src/ARMJIT_x64/ARMJIT_LoadStore.cpp:808-814 | and to a Thumb load of an invalid literal at an address that is 2 modulo 4 |
| StaleLiterals.RestoredGoesStale | src/ARMJIT.cpp:847-870 | and, with the literal covered by the code beside it, after the block was dropped: compiling again restores it with the old value |
| StaleBuilds.UnclosedGoesStale | src/ARMJIT.cpp:847-870 | every block built whose code depends on something that was not hashed is live with the old value after a store to it, at once or after compiling the same code again |
| StaleBuilds.GatheredStill | src/ARMJIT.cpp:703-728 | a literal of another block becoming invalid changes nothing about what is fetched for this one |
| CrossRestores.SharedCodeBreaksOwnership | src/ARMJIT.cpp:847-870 | a run of two compiles and two stores in main memory, under the address mapping of any console whose ARM9 has no TCM there, after which a retired block is still in a map |
| CrossRestores.OwnerNeverCrosses | src/ARMJIT.cpp:847-870 | if all blocks are made for the CPU that owns their address no restore crosses |
| CrossRestores.OneCpuRunsSound | src/ARMJIT.cpp:532-1157 | if each start address is compiled for one CPU only, every run is one to which the results above apply |
| AddressTranslation.SharedOnce | src/NDS.cpp:1248-1287 | every byte of the shared memory is one CPU's and not the other's |
| AddressTranslation.SameMirror | src/ARMJIT_Memory.cpp:1027-1174 | every address of a window gets the same window |
| AddressTranslation.MirrorAgrees | src/ARMJIT_Memory.cpp:1027-1238 | window offset plus distance into the window is the offset the other translation gives |
| AddressTranslation.LocalInBounds | src/ARMJIT_Memory.cpp:1176-1238 | windows lie inside the region's tables and below bit 27 |
| AddressTranslation.ExecutableOrNot | src/ARMJIT.cpp:84-93 | a window can be set up for an address if and only if its local address is not zero |
| AddressTranslation.TranslationsAgree | src/ARMJIT.cpp:1079-1095 | through a window the lookup reads exactly the slot CompileBlock writes, for every address of the region in it |
| AddressTranslation.KeptIsInWindow | src/ARM.cpp:624-633 | the dispatcher's test keeps a window only for addresses in it |
| AddressTranslation.WindowHitsOwnBlock | src/ARM.cpp:624-633 | whatever window is kept, and whatever region the address is in, a hit is the live block of that address and CPU |
| AddressTranslation.CompiledHitsInWindow | src/ARM.cpp:624-637 | a block just compiled is hit through every window over its region |
| AddressTranslation.CompiledHitsAtOnce | src/ARM.cpp:624-637 | in particular through the one the dispatcher sets up at its start |
| AddressTranslation.ClassifiedInMirror | src/ARMJIT.cpp:1079-1095 | the window set up for an address contains it |
| AddressTranslation.MainRamLocal | src/ARMJIT_Memory.cpp:1182-1183 | main memory has one local address for both CPUs |
| AddressTranslation.MappingKeepsWords | src/ARMJIT_Memory.cpp:1176-1238 | the addresses of one word have local addresses in one granule |
| Fifo.Fifo.Write | src/FIFO.h:51-62 | appends, or changes nothing when the queue is full |
| Fifo.Fifo.Read | src/FIFO.h:64-77 | removes the front; an empty queue gives the stale entry and stays empty |
| Fifo.Fifo.Clear | src/FIFO.h:32-38 | empties the queue |
| Ccm.FirstIs | src/DSi_AES.cpp:307-311 | the flags, nonce and length put together are block B_0 of section 2.2 of RFC 3610, field by field |
| Ccm.CounterIs | src/DSi_AES.cpp:299-303 | and those of a counter block the block A_i of section 2.3 |
| Ccm.CounterSteps | src/DSi_AES.cpp:290-303 | stepping the first counter block `n` times is the counter block of section 2.3 of RFC 3610 with its counter `n` higher |
| Ccm.StreamEncrypts | src/DSi_AES.cpp:188-214 | counter mode from counter block 1 is the encryption of section 2.3 |
| Ccm.OpenUndoesSeal | src/DSi_AES.cpp:160-214 | decryption of what encryption put out recovers it, with the same MAC chain |
| CcmTransfer.ExtraAdvances | src/DSi_AES.cpp:144-158 | one more header block advances the MAC and nothing else |
| CcmTransfer.PayloadAdvances | src/DSi_AES.cpp:160-238 | one more payload block advances counter, output and MAC, in either direction |
| CcmEngine.Engine.ProcessBlockExtra | src/DSi_AES.cpp:144-158 | a header block keeps the transfer invariant |
| CcmEngine.Engine.ProcessBlock | src/DSi_AES.cpp:160-238 | a payload block keeps it: what has come out is what the words taken in encrypt to |
| CcmEngine.Engine.CcmIv | src/DSi_AES.cpp:285-303 | the byte moves make the counter block of the nonce |
| CcmEngine.Engine.WriteCnt | src/DSi_AES.cpp:251-332 | a rising start bit begins a transfer in the mode the register says, with counter block A_1 and, encrypted, a first block with the fields of B_0 (additional data, MAC length of at least 1, nonce from the IV register, length of the payload), as in sections 2.2 and 2.3 of RFC 3610, from whatever state; otherwise only the register and the key change |
| CcmEngine.Engine.Update | src/DSi_AES.cpp:405-490 | processes what the queues allow and keeps the invariant; it stops only for want of input or of room |
| CcmEngine.Engine.Finish | src/DSi_AES.cpp:428-489 | judges a decryption by the whole MAC register, puts out the MAC of an encryption or notes that it is due, and raises the interrupt if asked for |
| CcmEngine.Engine.WriteInputFIFO | src/DSi_AES.cpp:370-381 | keeps the invariant; a word is taken in unless the queue is full; an ended decryption has been judged |
| CcmEngine.Engine.ReadOutputFIFO | src/DSi_AES.cpp:339-368 | keeps the invariant and hands out the front of the output; a MAC that is due follows as soon as it fits |
| CcmTransfer.ByteOrder | src/DSi_AES.cpp:144-179 | the first byte of a block is the highest of its last word, and so on down |
| CcmRoundTrip.BeganAsWritten | src/DSi_AES.cpp:274-316 | a transfer begun by a rising start bit is one the results below speak of, with the nonce of the IV register and the length field of the control register |
| CcmRoundTrip.Interleave | src/DSi_AES.cpp:339-381 | the invariant holds after every interleaving of writes and reads, and while no write meets a full queue all words written are taken in, in order |
| CcmRoundTrip.FinalMacIs | src/DSi_AES.cpp:430-456 | the MAC put out is that of sections 2.2 and 2.3 of RFC 3610 over headers and plaintext |
| CcmRoundTrip.EncryptedOnce | src/DSi_AES.cpp:405-490 | at the end of an encryption the output is each block encrypted once, in order, then the MAC, nothing lost to a full queue |
| CcmRoundTrip.DecryptedAndJudged | src/DSi_AES.cpp:405-490 | at the end of a decryption the output is the plaintext and bit 21 says whether the MAC register held its MAC |
| CcmRoundTrip.RoundTrip | src/DSi_AES.cpp:160-490 | a decryption fed the headers and what an encryption put out returns the plaintext, and sets bit 21 if and only if it is given the MAC that was put out |
| CcmRoundTrip.NeverStuck | src/DSi_AES.cpp:405-490 | once all words are fed a transfer waits only for output to be read |
| CtrBytes.CryptUndone | src/DSi_NAND.cpp:209-257 | counter mode over a buffer is its own inverse |
| CtrBytes.CryptSlice | src/DSi_NAND.cpp:209-257 | a slice of the encryption is the encryption of the slice with the counter moved along |
| CtrBytes.CryptBuffer | src/DSi_NAND.cpp:218-226 | the loop over a buffer, in place, is counter mode on its first blocks and leaves the rest |
| NandFat.NANDImage.SetupFATCrypto | src/DSi_NAND.cpp:187-207 | the byte-wise sum with carry is the IV stepped as often as the block counter says, modulo 2^128 |
| NandFat.NANDImage.ReadFATBlock | src/DSi_NAND.cpp:209-229 | the buffer is what was read and what stood behind it, the blocks the length reaches into decrypted; 0 exactly if the file is too short |
| NandFat.NANDImage.WriteFATBlock | src/DSi_NAND.cpp:231-257 | the sectors the length reaches into together store one encryption of their part of the buffer, and nothing else in the file changes; 0 exactly if they do not fit |
| NandFat.StoredAt | src/DSi_NAND.cpp:187-257 | each byte is xored with one of the cipher of IV plus block number, which depends on the byte's own address alone as long as the truncated count does not wrap |
| NandFat.SeekableIffNoWrap | src/DSi_NAND.cpp:209-257 | an aligned part of what was written reads back if and only if the truncated counter does not wrap between the two addresses |
| NandFat.ReadBackIffNoWrap | src/DSi_NAND.cpp:209-257 | the same through the file |
| NandFat.WrapFails | src/DSi_NAND.cpp:209-257 | of two sectors written up to and from the address where the counter wraps the second reads back wrong |
| EsContainer.ESEncrypt | src/DSi_NAND.cpp:283-366 | in place, the buffer becomes the sealed container: payload, MAC, fixed byte, nonce, length |
| EsContainer.ESDecrypt | src/DSi_NAND.cpp:368-471 | in place, the buffer becomes the opened one; the result is whether length and MAC are accepted |
| EsContainer.SealTail | src/DSi_NAND.cpp:320-336 | the partial block is filled up with zeros and only its own bytes are written |
| EsContainer.OpenTail | src/DSi_NAND.cpp:404-426 | the partial block is filled up with key stream and only its own bytes are written |
| EsContainer.TailFilledUp | src/DSi_NAND.cpp:404-426 | filling an encrypted tail up with key stream gives the encryption of the zero-padded tail |
| EsContainer.OpenedIsPadded | src/DSi_NAND.cpp:388-426 | so opening recovers the zero-padded payload, for whole and partial last blocks alike |
| EsContainer.MasksAgree | src/DSi_NAND.cpp:337-340 | the two routines mask the MAC with the same counter block, though they reach it in different ways |
| EsContainer.FooterLengthRead | src/DSi_NAND.cpp:444-454 | the length read from the footer is the one sealed, modulo 2^24 |
| EsContainer.RoundTrip | src/DSi_NAND.cpp:283-471 | what was sealed is accepted if and only if it is shorter than 2^24 bytes, and then the payload is restored |
| EsAsCcm.SealedAsCcm | src/DSi_NAND.cpp:283-366 | sealing xors byte `j` of the payload with that of counter block A_(j / 16 + 1) and puts behind it the MAC of section 2.2 of RFC 3610, for a first block B_0 without additional data and with the zero-padded length |
| EsAsCcm.OpenedAsCcm | src/DSi_NAND.cpp:368-471 | opening gives every container's payload so decrypted and zero-padded, and accepts if and only if the footer's length is right and the MAC is that of the payload |
| Bytes.XorMeans | src/DSi_AES.cpp:156-158 | a bit is set if and only if it is set in one of the two |
| Crc32.Reflect | src/CRC32.cpp:25-37 | the lowest `ch` bits mirrored, the others cleared |
| Crc32.StepMirrored | src/CRC32.cpp:44-52 | a division step from the top is one from the bottom in the mirror |
| Crc32.GetCRC32Table | src/CRC32.cpp:39-54 | entry `i` is eight bit-serial steps of `i` with the reflected polynomial |
| Crc32.DivideByte | src/CRC32.cpp:64-65 | taking bits in at once and then stepping is taking them in one by one |
| Crc32.TableStep | src/CRC32.cpp:64-65 | one table step takes in one byte of the bit-serial division |
| Crc32.CRC32 | src/CRC32.cpp:56-75 | the CRC of every byte string is the bit-serial one of section 8 of RFC 1952; null data is a run of zeros |
| Crc32.Chains | src/CRC32.cpp:56-75 | chaining through `start` is one pass over the concatenation |
| NewWram.NwramBank.MapNWRAM | src/DSi.cpp:1075-1212 | after every write each slot holds the lowest-numbered enabled part assigned to it, or nothing; a protected register does not change |
| NewWram.SettingBits | src/DSi.cpp:1075-1212 | which bits of a register enable a part, name its slot and its owner |
| NewWram.SlotBits | src/DSi.cpp:1368-1394 | the slot of an address is the bits above the part, as many as the range register's size says |
| NewWram.WindowBits | src/DSi.cpp:1240-1280 | which bits of a range register say where its window begins and ends |
| NewWram.OrderDoesNotMatter | src/DSi.cpp:1075-1212 | equal registers give equal maps, however they came about |
| NewWram.NwramBank.Read | src/DSi.cpp:1362-1505 | the bytes of the lowest part in the slot, zeros if there is none |
| NewWram.NwramBank.Write | src/DSi.cpp:1518-1580 | the bytes change in every part assigned to the slot and nowhere else |
| NewWram.ReadBack | src/DSi.cpp:1362-1580 | a read after a write of the same address, width and CPU gives the value if the slot is mapped and 0 if not |
| NewWram.OtherSlotsKept | src/DSi.cpp:1518-1580 | every other slot of either CPU reads as before |
| NewWram.WindowAligned | src/DSi.cpp:1214-1280 | windows begin and end with a part and masks name no slot too many |
| NewWram.AccessInOneWindow | src/DSi.cpp:1368-1394 | all bytes of an aligned access fall in the same slot of the same window |
| DmaUnits.UnitsAppend | src/DMA.cpp:558-629 | two loops, the second from where the first stopped, are one |
| DmaUnits.UnitAt | src/DMA.cpp:558-629 | the `k`-th unit of a loop lies `k` steps from the first, at both ends |
| Dma.UnitsStep | src/DMA.cpp:125-139 | which is up, down, nowhere, or up and reloaded, by the mode |
| Dma.DmaChannel.WriteCnt | src/DMA.cpp:115-154 | a rising enable bit latches addresses, steps and mode and starts in immediate mode; what is left of a transfer in progress is a loop from where it then stands |
| Dma.DmaChannel.Start | src/DMA.cpp:156-197 | length, run length of at most 112 in FIFO mode, reloads; a run of a transfer in progress continues its loop |
| Dma.DmaChannel.Run | src/DMA.cpp:558-699 | a slice does as many units as it may, next in the order of one loop; at the end of the transfer exactly all were done, the enable bit falls unless repeating, the interrupt is raised if asked for |
| Dma.Serve | src/DMA.cpp:558-699 | for every schedule of slices, stalls and restarts the accesses are those of one uninterrupted loop |
| Dma.DmaChannel.NextBurstTiming | src/DMA.cpp:204-556 | the burst index never leaves the 256-entry table, also across the reset of the table at a start |
| Ndma.WordsStep | src/DSi_NDMA.cpp:108-122 | the `k`-th word lies `k` words up, down or nowhere from the first, by the modes of source and destination |
| Ndma.NdmaChannel.WriteCnt | src/DSi_NDMA.cpp:97-142 | a rising enable bit latches addresses, steps and the total and starts in immediate mode; a run under way goes on, and is accounted for if and only if it does not go past the new total |
| Ndma.NdmaChannel.Start | src/DSi_NDMA.cpp:144-190 | a trigger begins a run of the block length, at most 112 in FIFO mode and never more than is left of the total |
| Ndma.NdmaChannel.Run | src/DSi_NDMA.cpp:199-392 | a slice moves as many words as it may, enabled or not, and counts them off the total modulo 2^32; a counted channel stays enabled exactly while words are left |
| Ndma.NdmaChannel.Finish | src/DSi_NDMA.cpp:269-292 | disables or not, and raises the interrupt or not, by mode, repeat bit and remaining total |
| Ndma.Serve | src/DSi_NDMA.cpp:144-392 | for all triggers and slices a counted channel performs one loop of exactly its total length, and the remaining total never goes below zero |
| Ndma.Shorten | src/DSi_NDMA.cpp:97-292 | a new total given while a run is under way is counted past zero if and only if the slice moves more words than it; the channel is then not disabled at the end of its block |
| RegisterBanks.UpdateModeKeepsFile | src/ARM.cpp:448-525 | a change between any two modes keeps every user register and every banked register as a debugger reads them |
| RegisterBanks.PairedUpdateMode | src/ARM.cpp:448-525 | a change and back changes nothing, for all modes |
| RegisterBanks.IrqEntry | src/ARM.cpp:527-548 | entry banks the registers, saves status and return address, masks interrupts and jumps to the vector in ARM state |
| RegisterBanks.InterruptResumes | src/ARM.cpp:406-548 | entry followed by the usual return restores status, program counter and r0-r13; r14 if and only if the interrupted mode was not IRQ itself or r14 held that address |
| BlockTransfer.Arm.UpdateMode | src/ARM.cpp:448-525 | the register-by-register exchange is the exchange of banks |
| BlockTransfer.Arm.A_STM | src/ARMInterpreter_LoadStore.cpp:469-528 | the whole state after it: memory, writeback before or after, base in the list on either CPU, user bank |
| BlockTransfer.Arm.A_LDM | src/ARMInterpreter_LoadStore.cpp:393-467 | the whole state after it: registers, writeback rules of either CPU, user bank, jump with or without status |
| BlockTransfer.StoredAt | src/ARMInterpreter_LoadStore.cpp:500-519 | each stored register is found in its own word, wherever the base points |
| TransferPlaces.StmPlaces | src/ARMInterpreter_LoadStore.cpp:469-528 | in each of the modes IA, IB, DA and DB every listed register is stored in its place, and no register changes but a base written back |
| TransferPlaces.LdmPlaces | src/ARMInterpreter_LoadStore.cpp:393-467 | and loaded from it, but for a base that is written back |
| TransferPlaces.LdmJumps | src/ARMInterpreter_LoadStore.cpp:429-464 | without the S bit a listed r15 continues at the loaded address, in Thumb state if its bit 0 is set and the CPU is the ARM9, and the rest of the status stays |
| TransferPlaces.WritesBackIff | src/ARMInterpreter_LoadStore.cpp:441-457 | a load writes a listed base back on the ARM9 only, if it is alone in the list or not the last |
| TransferPlaces.JitAgreesIff | src/ARMJIT_x64/ARMJIT_LoadStore.cpp:761-763 | the compiler decides as the interpreter does if and only if it is not the ARM7 with a listed base that is not the last, which the compiler writes back |
| TransferPlaces.LdmReturns | src/ARMInterpreter_LoadStore.cpp:429-464 | with the S bit the status is the saved one, the registers of its mode come in with no register lost, and the state is the one it says |
| BlockTransfer.PairRestores | src/ARMInterpreter_LoadStore.cpp:393-528 | each of the four STM/LDM writeback pairs restores all listed registers and the base and nothing else |
| BlockTransfer.UserStore | src/ARMInterpreter_LoadStore.cpp:488-522 | with the S bit the user registers are stored, in every mode, and no register changes; the ARM7 stores a listed, unbanked base that is not the first register as an address |
| BlockTransfer.UserLoad | src/ARMInterpreter_LoadStore.cpp:393-467 | with the S bit and no r15 exactly the listed user registers are loaded, in every mode |
| ProtectionMap.RegionFits | src/CP15.cpp:184-197 | the forced alignment alone keeps every region within the 2^20 pages |
| ProtectionMap.InBlock | src/CP15.cpp:184-197 | a page is in a region if and only if it shares the high bits of the base |
| ProtectionMap.UserWithinPrivileged | src/CP15.cpp:164-252 | nothing is granted in user mode that is not granted in privileged modes |
| ProtectionMap.RegionPermits | src/CP15.cpp:199-261 | who may read, write and execute, and what is cached, by the fields of a region |
| ProtectionMap.ProtectionUnit.UpdatePURegion | src/CP15.cpp:152-261 | the pages of the region get its masks and all others keep theirs |
| ProtectionMap.ProtectionUnit.UpdatePURegions | src/CP15.cpp:263-296 | every page of both maps gets the masks of the region that decides it |
| ProtectionMap.DecidesTop | src/CP15.cpp:291-295 | which is the highest-numbered enabled region that contains it |
| ProtectionMap.DecidesNone | src/CP15.cpp:288-289 | and 0 if none does |
| CheatVm.RunCheat | src/AREngine.cpp:42-418 | halts for every well-formed code and whatever memory answers, with the result of the step-by-step meaning |
| CheatOps.DataOpMeans | src/AREngine.cpp:288-321 | each operation on the data register gives the word with the bits of C's operator: or, and, exclusive or, shifts by 0 to 255, rotation; sum and product modulo 2^32; an unknown one changes nothing |
| CheatOps.HoldsMeans | src/AREngine.cpp:98-208 | codes 3 to 6 compare the operand with the word read, 7 to A its low half with the halfword read without the bits set in its high half |
| CheatOps.NestedIff | src/AREngine.cpp:98-254 | behind an IF within an IF and the end of the inner one the condition is that of the outer one if and only if the outer one holds; otherwise what follows is executed |
| CheatVm.StepDescends | src/AREngine.cpp:59-282 | every instruction lowers the measure (length - loopstart, loopcount, length - pc) |
| CheatVm.StepGoes | src/AREngine.cpp:59-387 | every instruction, executed or skipped, goes to the next boundary or back to the loop: boundaries do not depend on conditions |
| CheatVm.ParamsCopied | src/AREngine.cpp:358-387 | an E instruction writes its parameter bytes in order to consecutive addresses, word by word, tail and wrap-around included |

## Left out

Contracts that say less than one might expect:

- CcmEngine.Engine.WriteCnt: a write that aborts a transfer in progress or changes its mode keeps the queues and sets the fields, but nothing is said about what comes out until the next transfer starts.
- Dma.Serve: no reload mode, which restarts at the first address at every run by intention; `Dma.DmaChannel.Start` says what a run then does.
- Ndma.Serve: no reload bit, for the same reason; `Ndma.NdmaChannel.Start` says what a block then does.
- NandFat.NANDImage.ReadFATBlock: the buffer holds the last block whole, which the source's loop decrypts whole. A read past the end of the file leaves unsaid what is in the part to be filled, as the C library does.
- NandFat.NANDImage.WriteFATBlock: the buffer holds the last sector whole. The file is of fixed size: a write past its end fails, and of what was written before nothing is said.
- Ndma.NdmaChannel.WriteCnt: a write that changes reloading or the source mode of a channel that stays enabled keeps the fields, but nothing is said about the words moved before.
- Dma.DmaChannel.NextBurstTiming: the timing tables are a parameter, of which only the zero that ends each burst pattern is assumed.
- InstrInfo.ThumbFitsCache: for entries that use at most four register fields; the entries of `src/ARM_InstrInfo.cpp:238-312` use at most three, but the table is not part of the model. The ARM bound needs nothing of the table.
- CheatVm.RunCheat: for codes that divide into instructions with their parameters up to their end; the source reads past the end of any other. Memory is an arbitrary function of the accesses so far.
- NandFat.SeekableIffNoWrap: for a cipher that keeps the two counter blocks at hand apart, as a block cipher does; it is needed only for the direction that reading fails.
- BlockCoherence.RunCoherent: for runs of careful steps, see above; what they ask where the cache is reset is sufficient only. Equal hashes are taken to mean equal instructions at equal addresses and equal words of literals. The guest mapping must keep the addresses of a word in a granule, as `AddressTranslation.MappingKeepsWords` shows it does.
- BlockSource.CollectRanges: literal optimisations are on; without them nothing is noted or folded. A literal in memory that holds no code has local address 0, for which the source has no table; the model gives it one.
- StaleLiterals.PlainIsCareful: one way only; a literal that slips does no harm if it is hashed for another reason, which `BlockSource.ClosedIff` states exactly.
- StaleBuilds.UnclosedGoesStale: the cache is not reset and none of the block's literals is written to while it is compiled, no other live block has the same instructions, and the halfword is not itself the local address of a noted literal, a store to which frees the block.
- GuestStores.HitIsCurrent: code in a window the two disagree about is excluded, harmless where the bus shows nothing that can be written to. The ARM7's protection of its BIOS and the word at 0x02FE71B0 the DSi reads as ones are not part of memory, and a DTCM hides no code, since none is compiled there.
- GuestMemory.IdentifiesIff: only the lowest of several parts of new WRAM in one slot counts as its memory; the others are written along and shown nowhere.
- CompiledBlock.RefinesIff: for codes that may do with the constants they use whatever specialised code may; a particular load that uses an exchanged constant can still be right, as where both addresses are aligned alike.
- FlagLiveness.DeadWritesInvisible: for instructions that write what they are said to write for certain and nothing but what they may; an unconditional MSR of the flags of a saved status register and a flag-setting multiplication on the ARM7 do not.
- IdleLoop.IdleAccepted: an instruction that reads a register and writes nothing at all makes a loop rejected that is idle, if the register is written later on.
- DecodedTransfers.ListObeys: without the S bit; with it the registers of another bank are transferred, which decoding does not record.
- DecodedFlags.FlagsObeyIff: data processing and multiplication; for the condition of any instruction see `InstrInfo.ArmConditional`.
- HitContents.HitIsFetched: for literals folded on the first try; the second try folds the word turned by sixteen bits, see above.
- EsAsCcm.SealedAsCcm: for payloads below 2^24 bytes with their padding, the lengths the footer and B_0 have room for.
- BlockSafety.InvalidateSafe: the granule's mask plays no part, since the inner `mask` of `InvalidateByAddr` (`src/ARMJIT.cpp:951`) hides the outer one: every block in the 512-byte range goes, and this is what is proved.
- CcmRoundTrip.RoundTrip: for MACs compared from the MAC register; the source has no other.
- RegisterBanks.UpdateModeKeepsFile: the special case of `ReadReg` for the user stack pointer in reserved modes and its status-register reads are not part of it.
- ProtectionMap.ProtectionUnit.UpdatePURegion: the source calls it alone for changed permissions; over overlapping regions that does not give what a full update gives, and nothing is claimed.

Parts of the program the model does not have:

- Native code itself: what an instruction compiles to is a parameter, and saves and loads of registers are copies. Code buffer addresses, page protection and `SetCodeProtection`.
- Remapping of memory under live blocks, `CheckAndInvalidateITCM` and `CheckAndInvalidateWVRAM`, and code that overwrites itself while `CompileBlock` is still interpreting it, apart from the literals it notes.
- Branch merging and prediction in `CompileBlock` (`DecodeBranch`, merged BL, followed branches) except as the flags they demand; the Thumb bit is no part of a block's identity in the source and none here.
- Fixed capacities: `MaxBlockSize` arrays and the 16-bit length of a `TinyVector`.
- The instruction tables beyond the entries listed by class in the decoder's modules, and what data processing, multiplication and coprocessor instructions compute.
- AES, XXH3 and SHA-1 as algorithms, key slots X and Y and the derivation of a normal key from them.
- The requests that start DMA from other devices, FIFO thresholds and all timing, except the burst table's index.
- Savestates, register dispatch, read-only views of control registers, masks of partial register writes (a queue word is four bytes).
- Data aborts in block transfers, `UpdateRegionTimings`, exceptions other than the IRQ.
- The DSP's view of the new WRAM beyond its map, and the memory behind addresses that fall in none of its windows.
- Everything else the emulator does: graphics, sound, Wi-Fi, cartridges, the debugger stub, files.
