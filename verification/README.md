# Verified model of an RV32IMA emulator

The emulator runs RISC-V code by translating it, one basic unit at a time, into x86-64
blocks kept in a cache. This project models its hard core in Dafny and proves what that
core is for: that translated code does what the guest code says, exactly when the caches
and indexes around it answer rightly, and that the interrupt, timer, device-tree and
hashing code keeps its promises over whole runs.

## How it is built

- **Tables** (`SortSearch`, `PcIndex`, `PmRegion`): the sort and search macros as in-place
  methods; the sorted pc index, whose comparator is a wrapped signed difference; the table
  of physical regions.
- **Translation** (`Rv32`, `Rv32Standard`, `Rv32System`, `Decoder`, `X86`, `Translator` and their proofs): a
  reference interpreter for the integer, branch, jump and M instructions, and for every other
  instruction what it asks of the vmm and how it completes; the decoder on bit-vectors, the slice
  of x86-64 the blocks use with its flags, 64-bit registers, divide errors and calls, and the
  blocks as instruction lists with patched parameters. Every block is proved to have exactly the
  effect of its instruction.
- **Cache and vmm loop** (`TranslationCache`, `HartCache`, `CacheProof`, `Guest`, `Engine`,
  `VmmLoop`, `FencedRun`, `FencedGuest`, `LayoutWitness`): the code buffer with block extents, the prefetch loop as a
  recursive function and as a method on the hart's fields, and the loop of boundary, prefetch and
  execution. The rest of the emulator is a parameter: memory, csrs, TLBs and devices are a world
  of any type, and the functions the blocks call, the boundary and the page fault are arbitrary
  functions of it that may raise traps, flush, and change the code that is visible. Main result:
  `VmmLoop.RunIsReferenceRun`; `FencedRun.FencedRunIsPlain` says when this is a run of a machine
  without any cache.
- **Privilege** (`HartTrap`, `HartObject`, `TrapProof`, `TrapBracket`, `TrapStandard`,
  `PrivilegeStandard`): traps, returns, csr instructions and the flush on a change of address-space
  tag, as functions and as an object; coherence over all runs, nested traps with what their handlers
  do, and delegation, causes, priorities and privilege checks by the numbers of the standard.
- **Timer** (`Clint`, `TimerRelay`, `RelayProof`, `SbiStandard`): the CLINT, the firmware's handlers
  as programs executed one store or register write at a time with the clock running in between,
  the invariant of the relay, and what every call and interrupt leaves when the firmware returns.
- **Interrupt controller** (`Plic`, `PlicProof`), **address translation** (`Sv32`,
  `Sv32Proof`, `Sv32Standard`), **atomics** (`Reservations`, `Atomics`), **SHA-1** (`Sha1`, `Sha1Standard`,
  `Sha1Stream`, `Sha1Final`) and **device tree** (`Fdt`, `FdtProof`).

What two sides of a proof share, such as the operations of the reference and the host, the functions of
SHA-1, bit positions and register addresses, is pinned by lemmas in other words or by literals, most of
them in the modules named after a standard.

State the source updates in place is a class; each method is proved equal to a function of
the old state, and the theorems are about those functions. Machine words are integers with
explicit wrap-around, or bit-vectors where bits are the point. The 80 unrolled SHA-1 lines
are one loop over the round number; each block macro is one list of instructions.

## What turned out false, and exactly when

- The byte behind a fall-through block is the next block or a jumper, except after a unit
  that began with a flush, ended without a terminator, and stopped exactly at the old end
  pointer, and after a page fault in mid-unit, which moreover is raised before the guest
  reaches it. Both can be told before the prefetch (`CacheProof.PrefetchKeepsLayout`, with
  witnesses in `LayoutWitness`).
- REMU by zero kills the host, although the comment above the division translators calls it
  all right; so do REM by zero and INT_MIN / -1 of DIV and REM
  (`MulDivProof.HostDivideValue`, `vmm/translate_multiplication_and_division.c:188-194`).
- A TLB hit can be wrong because no tag is compared (`Sv32Proof.FreshIffNoClash`).
- The page walk does not check for reserved encodings, misaligned superpages or a pointer at
  the last level (`Sv32Standard.WalkIsStandard`, with a witness for each).
- A region that covers others whole passes the checks of registration; it is then registered and
  leaves the table unusable, or is not found again and stops the emulator, depending on where the
  probes fall (`PmRegion.RegionTable.Register`, `PmRegion.CoveringSpoils`, `PmRegion.CoveringIsLost`).
- A doorbell call names its hart unchecked and can overwrite the timer comparator
  (`RelayProof.StrayDoorbellMovesTheDeadline`, `RelayProof.HarmlessIsExact`).
- A store between load-reserved and store-conditional goes unnoticed, whoever makes it and
  wherever (`Reservations.StoresDoNotMatter`); a reservation is lost exactly by being evicted
  or used up (`Reservations.ScSucceedsExactly`).
- An atomic whose store faults has already written rd, x0 included (`Atomics.SlowpathIsStandard`,
  `Atomics.ZeroAfterFault`), and so has a store-conditional (`Atomics.ConditionalIsStandard`).
- `sret` in machine mode is an illegal instruction here, and only there
  (`PrivilegeStandard.SretAgrees`); csr instructions check no privilege level, which matters
  exactly below the level of the register (`PrivilegeStandard.CsrAgrees`).

## Model

| member | source | states |
|---|---|---|
| `SortSearch.Search` | vmm/search.h:10-37 | The probing loop ends and returns what the recursive probe defines, for any comparator and any prefix of a table |
| `SortSearch.SearchFinds` | vmm/search.h:10-37 | On a table the target splits, an entry is found exactly when it matches, and nothing is found exactly when nothing matches |
| `SortSearch.BisectTarget` | vmm/sort.h:36-60 | The bisecting loop ends with the position of the last element among the others |
| `SortSearch.ShiftUp` | vmm/sort.h:62-73 | Moving the entries up one by one puts the last element at its position and keeps everything else in order |
| `SortSearch.InsertionSort` | vmm/sort.h:35-76 | In place, the sorted prefix becomes itself with the last element inserted, and what is behind stays |
| `SortSearch.InsertedAscending` | vmm/sort.h:35-76 | Inserting into an ascending table leaves it ascending, for every comparator that follows a ranking |
| `SortSearch.InsertedMultiset` | vmm/sort.h:35-76 | Insertion loses and duplicates nothing |
| `SortSearch.BubblePass` | vmm/sort.h:14-25 | One inner pass ends as its recursive form says, with the comparator ending the program where it does; otherwise it permutes, and settles one more of the largest elements if the comparator follows a ranking |
| `SortSearch.Sort` | vmm/sort.h:12-27 | The bubble sort ends the program exactly where a comparison it makes does; otherwise it permutes the table whatever the comparator answers, into ascending order if it follows a ranking, and touches nothing behind it |
| `PcIndex.FindIsMembership` | vmm/hart.c:149-167 | On an index of one window the search finds a pc exactly when it is there, whether the pc itself is in the window or not |
| `PcIndex.InsertKeepsOrder` | vmm/hart.c:132-139 | Adding an absent pc of the window keeps the index strictly ordered, hence free of duplicates, and adds just that entry |
| `PcIndex.IndexRefinesMap` | vmm/hart.c:84-167 | After any history of additions of absent keys and flushes the search is the lookup of a finite map, for every key |
| `PcIndex.OrderIffWindow` | vmm/hart.c:105-107 | The comparator is a strict total order on a set of pcs if and only if they all lie in one window of length 2^31 |
| `PcIndex.CycleWithoutWindow` | vmm/hart.c:105-107 | Three concrete pcs the comparator orders in a cycle, so the window is needed |
| `PmRegion.LookupNeverAborts` | vmm/pm_region.c:22-55 | A lookup can trip the comparator's assertions only at address 2^32 - 1, where the key's upper bound wraps; elsewhere it compares equal exactly to the regions holding the address |
| `PmRegion.LookupIsIntervalSearch` | vmm/pm_region.c:50-66 | Lookup returns the unique region holding the address, or nothing exactly when none does |
| `PmRegion.RegistrationGuardExact` | vmm/pm_region.c:68-80 | The check at registration makes the new region disjoint from all others if and only if it also covers no existing lower bound |
| `PmRegion.OrderOfRegistrationIrrelevant` | vmm/pm_region.c:68-80 | Registering the same regions in any order gives the same table |
| `PmRegion.RegionTable.Lookup` | vmm/pm_region.c:50-66 | The in-place table's lookup is interval search |
| `PmRegion.RegionTable.Register` | vmm/pm_region.c:68-80 | For any region: the emulator goes on exactly when the checks in front admit it, it cuts no region, and the last lookup finds it in the slot the sort gives it; the table is then exactly the old one with the region in that slot, and usable if and only if the region covers no start of another |
| `PmRegion.SortPlaces` | vmm/pm_region.c:22-47 | Sorting a usable table with a new region behind it ends the emulator in the comparator exactly when the region cuts another, and otherwise puts it behind all that start below its end and moves nothing else |
| `PmRegion.CleanIsAccepted` | vmm/pm_region.c:68-80 | A region that covers the start of no other is accepted exactly when the checks in front admit it and it is not empty |
| `PmRegion.CoveringSpoils` | vmm/pm_region.c:68-80 | [0,30) after [10,20) is registered, and the table is no longer usable |
| `PmRegion.CoveringIsLost` | vmm/pm_region.c:68-80 | [0,35) after [10,20), [20,30) and [40,50) is admitted and sorted, but the last lookup does not find it |
| `PmRegion.CuttingEnds` | vmm/pm_region.c:22-47 | [5,15) after [10,20) is admitted and ends the emulator in the comparator |
| `Rv32.TruncationHolds` | vmm/translate_multiplication_and_division.c:195-381 | The reference quotient and remainder satisfy q*d + r = n with the remainder smaller than the divisor and of the dividend's sign |
| `Rv32.TruncationUnique` | vmm/translate_multiplication_and_division.c:195-381 | They are the only numbers that do |
| `Words.BitwiseIsBitByBit` | vmm/translate_arithmetic.c:8-451 | Bit i of a conjunction, disjunction or exclusive or is the conjunction, disjunction or difference of the two bits i, for all words and every i, the bits taken as quotients by powers of two |
| `Rv32Standard.EncodedAsListed` | vmm/translation.c:25-82 | The word of every integer, branch, jump, M and FENCE instruction lists, by the opcodes, function codes and field positions of chapter 24 of the Unprivileged ISA, as that instruction with its operands |
| `Rv32Standard.FieldsS` | vmm/translation.c:25-82 | The fields of a store lie where section 2.2 puts them |
| `Rv32Standard.SumsAndComparisons` | vmm/translate_arithmetic.c:8-451 | The reference's ADD, SUB, SLT and SLTU are sums modulo 2^32 and comparisons of the signed and unsigned values, section 2.4 of the Unprivileged ISA |
| `Rv32Standard.BitwiseOperations` | vmm/translate_arithmetic.c:8-451 | Its AND, OR and XOR are so bit by bit |
| `Rv32Standard.RightShifts` | vmm/translate_arithmetic.c:8-451 | A right shift by the low five bits moves every bit down and brings in zeros, or copies of the sign, for every bit of the result |
| `Rv32Standard.LeftShift` | vmm/translate_arithmetic.c:8-451 | A left shift moves every bit up and brings in zeros |
| `Rv32Standard.ProductHalves` | vmm/translate_multiplication_and_division.c:12-185 | MULH, MULHSU and MULHU, each with MUL as its lower half, make up the product of the operands read as the instruction reads them |
| `Rv32Standard.DivisionTable` | vmm/translate_multiplication_and_division.c:195-381 | Quotient and remainder of all four divisions, by zero and on overflow as in section 7.2, otherwise with dividend = divisor * quotient + remainder and the remainder smaller than the divisor and of the dividend's sign |
| `Decoder.InstructionDecodingPerType` | vmm/translation.c:25-82 | The field-by-field extraction, or-ing the parts of an immediate together, gives the decoding of each format |
| `Decoder.SignExtend32` | vmm/util.h:36-46 | The bit-by-bit loop fills every bit from the sign bit up with the sign |
| `Decoder.DecodeFormatU` | vmm/translation.c:25-82 | Decoding inverts the upper-immediate encoding, for all fields and immediates |
| `Decoder.DecodeFormatJ` | vmm/translation.c:25-82 | Decoding inverts the jump encoding, for all fields and immediates |
| `Decoder.DecodeFormatI` | vmm/translation.c:25-82 | Decoding inverts the immediate encoding, for all fields and immediates |
| `Decoder.DecodeFormatS` | vmm/translation.c:25-82 | Decoding inverts the store encoding, for all fields and immediates |
| `Decoder.DecodeFormatB` | vmm/translation.c:25-82 | Decoding inverts the branch encoding, for all fields and immediates |
| `Decoder.DecodeFormatR` | vmm/translation.c:25-82 | Decoding inverts the register encoding, for all fields and immediates |
| `Decoder.SignedOffsets` | vmm/util.h:36-46 | With the shift and sign bit its callers use, the extended immediate is the signed offset of the standard, for I, B and J immediates |
| `BlockProof.FlagsDecide` | vmm/translate_branch.c:9-272 | After the host comparison each condition the blocks branch or set on is the RISC-V comparison of the same operands |
| `BlockProof.OpBlockSimulates` | vmm/translate_arithmetic.c:8-451 | Each of the ten register-register blocks has exactly the effect of its instruction, for every rd, rs1, rs2 and machine state |
| `BlockProof.ImmBlockSimulates` | vmm/translate_arithmetic_immediate.c:10-255 | The same for the six immediate blocks |
| `BlockProof.ShiftBlockSimulates` | vmm/translate_arithmetic_immediate.c:257-373 | The same for the three shift-immediate blocks; the arithmetic one is told apart by a bit of the immediate |
| `JumpProof.LuiSimulates` | vmm/translation.c:84-123 | The LUI block has the effect of LUI |
| `JumpProof.AuipcSimulates` | vmm/translation.c:125-163 | The AUIPC block, which adds the pc patched in as its third parameter at translation time, has the effect of AUIPC |
| `JumpProof.JalSimulates` | vmm/translate_unconditional_jump_intrs.c:9-51 | The JAL block links, jumps and enters the vmm |
| `JumpProof.JalrSimulates` | vmm/translate_unconditional_jump_intrs.c:53-97 | The JALR block jumps to the value rs1 had before rd is written, also when they are the same register, with bit 0 cleared |
| `JumpProof.BranchSimulates` | vmm/translate_branch.c:9-272 | Each of the six branch blocks goes where its instruction goes and enters the vmm |
| `JumpProof.FenceSimulates` | vmm/translate_fence.c:45-67 | The FENCE block only steps to the next instruction |
| `MulDivProof.LowProduct` | vmm/translate_multiplication_and_division.c:12-53 | The low product half does not depend on the operands' signedness |
| `MulDivProof.MulProduct` | vmm/translate_multiplication_and_division.c:12-140 | The MUL, MULH and MULHU blocks leave the right half of the right product |
| `MulDivProof.MulMixed` | vmm/translate_multiplication_and_division.c:142-185 | One signed 64-bit multiplication and a shift give the MULHSU result |
| `MulDivProof.HostQuotTruncates` | vmm/translate_multiplication_and_division.c:195-381 | The host's signed division truncates as RISC-V's does |
| `MulDivProof.HostDivideValue` | vmm/translate_multiplication_and_division.c:195-381 | The host division raises an error exactly on a zero divisor or on INT_MIN / -1 of a signed operation, and otherwise leaves the RISC-V quotient and remainder |
| `MulDivProof.MulDivide` | vmm/translate_multiplication_and_division.c:195-381 | The four division blocks, guards for a zero divisor included, have the effect of their instructions or die in the host division exactly where stated |
| `MulDivProof.MulBlockSimulates` | vmm/translate_multiplication_and_division.c:12-381 | All eight blocks of the M extension together |
| `TranslateProof.TranslateEncoded` | vmm/translation.c:166-182 | For every integer, branch, jump, M and FENCE instruction and every pc the translator picks the right block for the encoded word, with parameters that stand for its registers, immediate and pc, and stops the unit exactly at jumps and branches |
| `CallTranslate.TranslateCallEncoded` | vmm/translate_privileged_instr.c:260-322 | The same for every load, store, atomic, csr, fence.i, sfence.vma, ecall, ebreak, wfi, mret and sret, which stop the unit unless they access memory or are ebreak |
| `Guest.GuestTranslates` | vmm/translation.c:291-325 | Through the dispatch tables every instruction of a guest gets its own block, operands and stop flag |
| `TranslationCorrect.BlockSimulates` | vmm/translation.c:84-163 | Every block has the effect of its instruction whatever the scratch registers and flags held before |
| `TranslationCorrect.InstructionTranslatedCorrectly` | vmm/translation.c:166-182 | Encoding, decoding, translating and running an instruction that makes no call is executing it, or kills the host exactly on the operands its division cannot take |
| `CallBlocks.LoadCalls` | vmm/translate_memory_load.c:10-248 | Each of the five load blocks calls the read function of its width with rs1 plus the signed offset, leaving registers and pc untouched |
| `CallBlocks.LoadCompletes` | vmm/translate_memory_load.c:10-248 | When the read returns, whatever it left in the scratch registers, rd gets the sign- or zero-extended operand, register zero stays zero and the pc steps on |
| `CallBlocks.StoreCalls` | vmm/translate_memory_store.c:11-145 | Each store block calls the write function of its width with rs1 plus the signed offset and the low part of rs2 |
| `CallBlocks.AmoCalls` | vmm/translate_amo.c:148-192 | The atomic block passes the numbers of rs1, rs2 and rd and the function code |
| `CallBlocks.CsrCalls` | vmm/csr_representation.c:111-143 | The csr block passes the instruction word |
| `CallBlocks.CallBlockCompletes` | vmm/translate_privileged_instr.c:20-259 | After the call every block completes its instruction: result register, register zero and pc, and back to the vmm exactly where the unit stops |
| `CallBlocks.CallsItsOwn` | vmm/translate_privileged_instr.c:260-322 | Which vmm function the block of an instruction calls, as a table by opcode, function codes and whole words, for every instruction that calls one |
| `TranslationCache.TranslateOne` | vmm/translation.h:236-247 | Going on after an instruction uses up the permission to flush or one slot of the index, which is why the prefetch loop ends |
| `CacheProof.CopyPacked` | vmm/hart.c:124-127 | Copying a block into the buffer keeps the blocks disjoint and inside it, and leaves those before it alone |
| `CacheProof.CommitKeeps` | vmm/translation.h:101-129 | Committing the next instruction of a unit closes the block before it, maps the pc, keeps room for the jumper, and opens its own end unless it is a terminator |
| `CacheProof.JumperCloses` | vmm/translation.c:208-235 | The jumper closes whatever the unit left open |
| `CacheProof.CommitsSurvive` | vmm/translation.h:236-247 | Once an instruction of a unit is committed nothing is flushed: the index and the end pointer only grow |
| `CacheProof.LoopKeeps` | vmm/translation.c:197-207 | From a cache the unit fits, for any code and window, the loop ends exactly as the stretch of instructions ahead says: with its blocks and no others added, at a terminator, a mapped pc, a block that does not fit or a page fault; it aborts exactly at a word no translator knows |
| `CacheProof.PrefetchKeepsLayout` | vmm/translation.c:187-236 | A prefetch maps the pc, adds exactly the stretch ahead and leaves every fall-through block followed by the next instruction or a jumper, if and only if it is not the case that the unit needs a flush and its open end, computed before the call from code, block sizes and mapped pcs, is the old end pointer; after a page fault, if and only if the first instruction faulted. It aborts exactly at a word no translator knows. The guest may have rewritten anything before: blocks that stay are what they were made of, new ones what is visible now. The translated code and the new unit lie in one window, or the unit starts with a flush |
| `CacheProof.HistoryKeepsLayout` | vmm/hart.c:84-93 | Over any mix of prefetches, each meeting that condition, of code changes without a flush, and of flushes after which other code is visible in another window, the cache stays fit to run for the code its blocks were made of |
| `CacheProof.LayoutFrame` | vmm/translation.c:187-236 | The layout depends on the code at the translated pcs only |
| `CacheProof.LoopFrame` | vmm/translation.c:187-207 | The loop depends on the code outside the mapped pcs only: rewriting translated code changes nothing it does |
| `LayoutWitness.ForgottenJumper` | vmm/translation.c:196-209 | On every host on which a fence, a jump and the jumper take the bytes of two other blocks, two units of 4096 instructions end at the same byte and the second gets no jumper |
| `LayoutWitness.SmallBlocksCoincide` | vmm/translation.c:196-209 | Blocks of 24, 48 and 60 bytes with a jumper of 12 are such a host |
| `LayoutWitness.FaultInMidUnit` | vmm/translation.c:203-236 | On every host a unit whose second fetch faults leaves its first block open |
| `HartCache.TranslationTable.constructor` | vmm/hart.c:41-66 | A new table is empty |
| `HartCache.TranslationTable.FlushTranslationCache` | vmm/hart.c:84-93 | Empties the index and rewinds the end pointer |
| `HartCache.TranslationTable.UnoccupiedCacheSize` | vmm/hart.h:112-128 | The room left with the jumper in reserve, and none once the index is full |
| `HartCache.TranslationTable.SearchTranslationItem` | vmm/hart.c:149-167 | The search of the mapping array is the lookup the proofs are about |
| `HartCache.TranslationTable.InsertMapping` | vmm/hart.c:129-139 | Appending and sorting in place inserts the mapping |
| `HartCache.TranslationTable.AddTranslationItem` | vmm/hart.c:108-147 | Adds block and mapping, or reports an error and changes nothing |
| `HartCache.TranslationTable.CommitTranslation` | vmm/translation.h:101-129 | Copies the block, finds it again and patches its parameters; fails exactly when an assertion would |
| `HartCache.TranslationTable.PrefetchOneInstruction` | vmm/translation.c:166-182 | One fetch, decode and translate, with the flush-once check |
| `HartCache.TranslationTable.AppendVmmJumper` | vmm/translation.c:230-235 | Writes the jumper behind the unit |
| `HartCache.TranslationTable.PrefetchInstructions` | vmm/translation.c:187-236 | The loop over the hart's fields terminates and does what the recursive prefetch does |
| `Engine.BlockIsOneStep` | vmm/translation.c:238-261 | Running the block of any instruction, with any vmm behind its call, is one step of the reference: the call is asked what the instruction asks, a trap it raises is taken, and otherwise the instruction is completed with its answer; or it is death in the host division |
| `Engine.EncodedIsOneStep` | vmm/translation.c:166-182 | Encoding, fetching, translating and running any instruction of a guest is one step of the reference |
| `Engine.UnitIsReferenceRun` | vmm/translation.c:238-261 | From any mapped pc of a cache fit to run, running blocks until control is back in the vmm is at least one step of the reference on the code the blocks were made of, of which only the last may empty the cache, or a run of it up to a division the host cannot take; what the guest rewrites meanwhile does not matter |
| `VmmLoop.FittingPrefetch` | vmm/translation.c:187-236 | A prefetch of a guest whose unit meets the guard leaves the cache fit to run with the pc mapped and the new blocks made of what is visible now, or faults on the pc itself and changes nothing |
| `VmmLoop.BoundedFits` | vmm/translation.c:187-236 | If no straight-line stretch of the guest overfills the cache, every prefetch meets the guard |
| `VmmLoop.BoundedIsSmooth` | vmm/translation.c:187-273 | Such guests meet the guard in every round of every run, however their code changes on the way |
| `VmmLoop.ResumeIsReferenceRun` | vmm/translation.c:238-261 | One prefetch, lookup and jump into the cache is a run of the reference, or the page fault of an unmapped pc, and leaves the cache fit |
| `VmmLoop.RoundIsReferenceRound` | vmm/translation.c:263-273 | One round, devices and interrupts first, is a round of the reference with the same interrupt or page fault taken |
| `VmmLoop.RunIsReferenceRun` | vmm/translation.c:187-273 | For any guest, any behaviour of memory, csrs and devices, and any contents of the host registers: while every prefetch meets its guard, after any number n of rounds the emulator's registers, pc and world are those of the reference after n rounds, whose fetches see for each pc what was visible there at the entry of some unit since the last flush, as the architecture allows; it ends early only at a division the host cannot take, and never runs into stray bytes |
| `FencedRun.FencedRunIsPlain` | vmm/translate_fence.c:8-43 | Unless the machine that fetches every instruction from the memory of the moment comes to an instruction that has changed at its pc since the last flush, the emulator's run is that machine's: a guest may rewrite its code without being told on as long as it fences before it executes it |
| `FencedRun.NeverStale` | vmm/hart.c:84-93 | Where every change of the visible code flushes, no run comes to such an instruction, so the emulator's run is that machine's whenever its prefetches meet their guards |
| `FencedGuest.FencedRewritingIsPlain` | vmm/translate_fence.c:8-43 | A concrete guest that stores over its own code and executes fence.i before it gets there runs as on that machine, for any number of rounds |
| `HartObject.HartState.Tag` | vmm/hart_util.h:23-33 | Reads the address-space tag |
| `HartObject.HartState.FlushOnAddressSpaceChange` | vmm/hart_util.h:41-48 | Flushes exactly when the tag differs from the saved one |
| `HartObject.HartState.SetupMmodeTrap` | vmm/hart_trap.c:8-54 | The field updates together are the machine trap |
| `HartObject.HartState.SetupSmodeTrap` | vmm/hart_trap.c:56-84 | The field updates together are the supervisor trap |
| `HartObject.HartState.RaiseTrapRaw` | vmm/hart_trap.c:111-133 | Sets up the trap and flushes on a change of tag; fails on any other target level. From a legal hart it succeeds, ends at the target level and keeps only translations of the address space then in force |
| `HartObject.HartState.RaiseExceptionInternal` | vmm/hart_exception.c:18-44 | Picks the level from medeleg and raises the trap there, which always succeeds on a legal hart and keeps it one |
| `HartObject.HartState.MretCallback` | vmm/translate_privileged_instr.c:49-60 | mret: an illegal instruction below machine mode, a failed assertion on a reserved MPP, otherwise the return and its flush; a legal hart stays legal and keeps only translations of its address space |
| `HartObject.HartState.SretCallback` | vmm/translate_privileged_instr.c:90-99 | sret: an illegal instruction outside supervisor mode, otherwise the return and its flush; the same is kept |
| `HartObject.HartState.SfenceVmaCallback` | vmm/translate_privileged_instr.c:129-137 | Empties TLBs and translation cache |
| `HartObject.HartState.EcallCallback` | vmm/translate_privileged_instr.c:169-190 | Raises the exception of the current level |
| `HartObject.HartState.IsInterruptDeliverable` | vmm/hart_interrupt.c:37-64 | Pending, enabled and not masked by the current level |
| `HartObject.HartState.DeliverInterrupts` | vmm/hart_interrupt.c:111-138 | The loop takes the first deliverable vector of the order, or changes nothing; a legal hart stays legal and keeps only translations of its address space |
| `HartObject.HartState.SatpWrite` | vmm/csr_supervisor_level.c:44-66 | A satp write empties TLBs and translation cache |
| `HartObject.HartState.CsrWrite` | vmm/csr_machine_level.c:183-382 | Every modelled register write, each with its own merge or side effect |
| `HartObject.HartState.GenericCsrCallback` | vmm/csr_representation.c:10-109 | The read-modify-write of the six csr instructions under the register's mask, the value read going to rd except for csrrw with rd = x0; level and legality are kept |
| `TrapProof.TagIdentifiesAddressSpace` | vmm/hart_util.h:11-33 | The tag is zero exactly when addresses are direct, and equal tags see the same code at every address |
| `TrapProof.ReturnRetags` | vmm/translate_privileged_instr.c:49-99 | mret aborts exactly in machine mode with the reserved MPP; no return leaves a translation of another address space behind |
| `TrapProof.RunKeepsSound` | vmm/hart_util.h:35-48 | Over every run of traps, returns, fences, register writes, fetches and edits, whenever no edit awaits its fence every cached translation is what a fetch of its pc would return now, and every TLB entry was walked under the satp in force |
| `TrapProof.OnlyReturnsLower` | vmm/hart_trap.c:111-133 | In every run only mret and sret lower the privilege level |
| `TrapBracket.MachineInterruptTaken` | vmm/hart_interrupt.c:111-138 | Below machine mode a pending, enabled machine interrupt always ends in machine mode |
| `TrapBracket.PumpTakesTheFirst` | vmm/hart_interrupt.c:37-138 | The pump takes exactly the first deliverable vector of the order, never for a lower level, and afterwards only interrupts for a strictly higher level can be deliverable |
| `TrapBracket.MachineTrapEnters` | vmm/hart_trap.c:8-54 | A machine trap enters at the base, or in vectored mode at the interrupt's slot, with cause, value, pc and level on record |
| `TrapBracket.SupervisorTrapEnters` | vmm/hart_trap.c:56-84 | The same for supervisor traps from below machine mode, where the one-bit SPP loses nothing |
| `TrapBracket.BracketRestores` | vmm/hart_util.h:58-113 | Properly nested traps and returns, of any depth and number, whose handlers run code, use any csr instructions that spare their own epc and saved status, fence, see pending bits change and let interrupts in again, restore pc (or go where the handler chose), level and interrupt enables; a machine trap inside a supervisor handler does not touch what that handler has saved |
| `TrapBracket.CarefulIsOrderly` | vmm/hart_util.h:58-113 | A handler whose csr instructions name no epc, and set or clear no more of the status registers than its own enable, is of that kind wherever it is entered |
| `TrapBracket.TimerHandlerReturns` | bootrom/sbi.c:267-292 | The firmware's timer handler is one: it brings pc, level and enables back, with the supervisor's interrupt pending and its own masked |
| `TrapBracket.ReentrantHandlerReturns` | vmm/hart_util.h:58-113 | So is a supervisor handler that reopens its interrupts and is interrupted by the timer |
| `TrapBracket.UnsavedNestingLoses` | vmm/hart_trap.c:8-54 | A machine handler that takes a machine trap and saves nothing returns into itself, in user mode |
| `TrapBracket.StatusRoundTrip` | vmm/csr_machine_level.c:318-348 | mstatus reads back what was written, in the bits a csr instruction can reach |
| `TrapBracket.MachinePendingIsReadOnly` | vmm/csr_machine_level.c:212-224 | No csr instruction on mip changes the machine pending bits |
| `TrapBracket.SupervisorPendingIsReadOnly` | vmm/csr_supervisor_level.c:130-137 | No csr instruction on sip changes anything but the software bit, and that takes the value written |
| `PrivilegeStandard.SretAgrees` | vmm/translate_privileged_instr.c:90-99 | sret does what section 3.3.2 of the Privileged Architecture says if and only if the hart is not in machine mode |
| `PrivilegeStandard.MretAgrees` | vmm/translate_privileged_instr.c:49-60 | mret does what it says if and only if it does not return to the reserved level |
| `PrivilegeStandard.CsrAgrees` | vmm/csr_representation.c:10-109 | A csr instruction is carried out or refused as the address bits of the register demand if and only if the hart is in machine mode, or in supervisor mode and the register is a supervisor one; here it is always carried out |
| `PrivilegeStandard.UserWriteTakesEffect` | vmm/csr_representation.c:25-48 | In user mode a write of medeleg takes effect where the standard refuses it |
| `TrapStandard.DelegationIsExact` | vmm/hart_exception.c:18-44 | For every hart outside the reserved level, every cause and value: an exception is taken by supervisor mode if and only if it comes from below machine mode and its bit of medeleg is set, otherwise by machine mode; in either case with the entry pc of that mode's vector, cause, value, pc and stacked status recorded there and nothing else changed |
| `TrapStandard.CausesOfCalls` | vmm/translate_privileged_instr.c:169-190 | ecall is exception 8, 9 or 11 by its level; a return from a level that may not is exception 2 |
| `TrapStandard.CauseOfFetch` | vmm/mmu.h:63-90 | A fetch from an unmapped page is exception 12 with the address as its value |
| `TrapStandard.ReturnUnstacks` | vmm/translate_privileged_instr.c:49-99 | mret and sret straight after a trap come back to pc, level and enables, with the previous enable set and user mode as previous level |
| `TrapStandard.DeliverableIsExact` | vmm/hart_interrupt.c:37-64 | An interrupt can be taken if and only if it is pending and enabled, and, delegated, the hart is in user mode or in supervisor mode with SIE, or, not delegated, below machine mode or in it with MIE |
| `TrapStandard.FirstOfAll` | vmm/hart_interrupt.c:111-138 | The pump takes, to its level and with cause 2^31 + number, an interrupt no other deliverable one comes before: machine before supervisor, external before software before timer, stated pairwise by number; and none only if none of the six can be taken |
| `TrapStandard.DevicesDrive` | vmm/hart_interrupt.c:84-100 | At a boundary the devices drive the pending bits 3, 7, 9 and 11 and no others, inside handlers as well |
| `TrapStandard.StepsOfRuns` | vmm/hart_util.h:58-113 | In a run calls trap with the number of their level, returns go to the level and pc of their trap, and a boundary serves the refreshed pending bits |
| `TrapStandard.StatusFields` | vmm/csr_machine_level.c:318-348 | The fields of mstatus lie at the bits section 3.1.6 of the Privileged Architecture gives them, and sstatus is its restriction |
| `TrapStandard.TableRegistersKeep` | vmm/csr_machine_level.c:183-382 | Every table register reads back what is written to it, and no other register reads differently for it |
| `TrapStandard.TrapRegistersShow` | vmm/csr_representation.c:10-109 | A csr instruction shows all 32 bits of cause, pc and value as the trap recorded them, for both modes |
| `TrapStandard.FencesEmpty` | vmm/translate_privileged_instr.c:129-137 | In a run sfence.vma leaves TLB and translation cache empty, fence.i the cache, and a satp write both |
| `Clint.HalvesMakeTheWhole` | vmm/emulate_clint.c:61-124 | Two word stores in either order make the same deadline as one doubleword store, and loads of both widths read it back |
| `Clint.SkipStopsAtADeadline` | vmm/emulate_clint.c:34-51 | Skipping fails exactly when no timer is armed; otherwise some timer becomes due, time never goes back, and no deadline ahead is jumped over |
| `Clint.RegistersReadBack` | vmm/emulate_clint.c:61-124 | By the addresses of the register map: a doorbell holds bit 0 of the last word written to it and no other changes, comparators and clock read as whole and as halves, and a half write keeps the other half |
| `Clint.ClintDevice.constructor` | vmm/emulate_clint.c:158-176 | Time zero and no timer armed |
| `Clint.ClintDevice.AdvanceTime` | vmm/emulate_clint.c:22-26 | The clock advances modulo 2^64 |
| `Clint.ClintDevice.SkipToNextDeadline` | vmm/emulate_clint.c:34-51 | The loop finds the earliest deadline and moves the clock there if it is ahead |
| `Clint.ClintDevice.RefreshPending` | vmm/emulate_clint.c:53-59 | The timer bit says the clock has reached the comparator, the software bit that the doorbell is set |
| `Clint.ClintDevice.MmioRead` | vmm/emulate_clint.c:61-88 | The load decode |
| `Clint.ClintDevice.MmioWrite` | vmm/emulate_clint.c:90-124 | The store decode, half-word merges included |
| `TimerRelay.SetTimerEffect` | bootrom/sbi.c:27-46 | The three comparator stores and two register writes leave exactly the requested deadline, enabled and not pending, whatever was there before |
| `RelayProof.CallPlan` | bootrom/sbi.c:96-253 | Every call with in-range doorbells leaves the firmware a program that arms the new deadline if it is set-timer and disturbs the relay not at all otherwise |
| `RelayProof.OpEffect` | bootrom/sbi.c:27-46 | Each firmware store or register write has its effect on the relay through the CLINT decode and the csr masks, and moves no clock |
| `RelayProof.RunKeepsInv` | bootrom/sbi.c:267-328 | The relay invariant holds through every run, mid-handler states included |
| `RelayProof.TimerIsRelayed` | bootrom/sbi.c:267-328 | From boot on, in runs whose doorbell calls stay within the doorbell registers, below machine mode and after the first set-timer, exactly one of MTIE and STIP is set, the comparator holds the last deadline, and STIP means the clock has reached it |
| `RelayProof.NoTickIsEarly` | vmm/hart_interrupt.c:111-138 | The supervisor timer interrupt is delivered only once the clock has reached the deadline |
| `RelayProof.NoTickIsLost` | vmm/hart_interrupt.c:111-138 | At the first unit boundary at which an armed deadline is reached a machine interrupt is taken |
| `RelayProof.TickIsHandedUp` | bootrom/sbi.c:267-328 | Once the clock has reached the deadline, however guest steps, idle turns, boundaries and in-range calls other than set-timer come in between, after five firmware operations, and those of the calls, the supervisor's timer interrupt is pending, also when a doorbell is answered first |
| `SbiStandard.CallReturns` | bootrom/sbi.c:66-318 | From any state of a run, by extension and function number: a supervisor call other than a shutdown returns behind the ecall to its level and enables, with exactly the doorbells named by the mask rung, the fences it asks for done, the software bit cleared by call 3 only, and the comparator, MTIE and STIP changed by the two timer calls only, to exactly the deadline asked for |
| `SbiStandard.InterruptReturns` | bootrom/sbi.c:267-328 | A machine interrupt taken below machine mode returns to where it was taken, having silenced the doorbell and set the software bit if the doorbell was rung and enabled, and otherwise cleared MTIE and set STIP; nothing else changes |
| `SbiStandard.IdleWaits` | vmm/hart_interrupt.c:146-164 | A turn of the idle loop leaves the clock alone if an interrupt is pending and enabled once the devices are fresh; otherwise some timer is due afterwards if any is armed, and no deadline ahead has been jumped over |
| `SbiStandard.ProgramEnds` | bootrom/sbi.c:267-328 | Every program of the firmware runs to its return, and leaves what its operations do one after the other |
| `RelayProof.StrayDoorbellMovesTheDeadline` | bootrom/sbi.c:48-54 | A doorbell call for hart 0x1000 rewrites the comparator, so a range condition on calls is needed |
| `RelayProof.HarmlessIsExact` | bootrom/sbi.c:48-54 | A doorbell store inside the CLINT leaves comparator and clock alone whatever they hold if and only if its address misses both |
| `Plic.WordRoundTrip` | vmm/emulate_plic.c:117-177 | A bit register read as a word shows exactly the bits it holds |
| `Plic.MaskRoundTrip` | vmm/emulate_plic.c:117-177 | A word written to a bit register is the word it reads as, and source s is in it exactly when bit s is set |
| `Plic.BestSourceIsBest` | vmm/emulate_plic.c:54-79 | The scan returns the candidate of highest priority and then lowest number, and 0 exactly when there is none |
| `Plic.PlicDevice.SetLine` | vmm/emulate_plic.c:41-52 | A device line drives asserted and pending together |
| `Plic.PlicDevice.FindBestSource` | vmm/emulate_plic.c:58-79 | The loop computes the scan |
| `Plic.PlicDevice.RefreshPending` | vmm/emulate_plic.c:81-89 | Each external interrupt bit is set exactly when its context has a candidate |
| `Plic.PlicDevice.ClaimSource` | vmm/emulate_plic.c:91-100 | Claims the best source, if any |
| `Plic.PlicDevice.CompleteSource` | vmm/emulate_plic.c:102-115 | Ends a claim and resamples the line; ignores numbers that are no source |
| `Plic.PlicDevice.MmioRead` | vmm/emulate_plic.c:117-145 | The load decode, claims included |
| `Plic.PlicDevice.MmioWrite` | vmm/emulate_plic.c:147-177 | The store decode, completions included |
| `PlicProof.ClaimRemovesBest` | vmm/emulate_plic.c:91-100 | A claim takes the first candidate in the order of service out of the candidates and changes nothing else |
| `PlicProof.DrainIsSortedEnumeration` | vmm/emulate_plic.c:54-100 | With the devices quiet, repeated claims on one context return each candidate exactly once, by descending priority then ascending number, within 31 claims, and 0 from then on |
| `PlicProof.PendingIsAsserted` | vmm/emulate_plic.c:41-177 | In every run pending equals asserted, and bit 0 of pending and claimed stays clear |
| `PlicProof.NeverHandedOutTwice` | vmm/emulate_plic.c:91-177 | Across all contexts and interleavings a source handed out twice was completed in between |
| `PlicProof.StillAssertedFiresAgain` | vmm/emulate_plic.c:102-115 | With the devices quiet a completed source is handed out again within 31 claims of a context if and only if its line is still up and it is enabled above the threshold there |
| `PlicProof.CompletionIsGlobal` | vmm/emulate_plic.c:102-177 | Any context may complete a source, and completing 0 or a number past the last source does nothing |
| `PlicProof.RegistersReadBack` | vmm/emulate_plic.c:117-177 | Enables, thresholds and priorities read back as written and writes touch nothing else, for every context and source |
| `PlicProof.RegisterMap` | vmm/emulate_plic.c:117-177 | By the addresses of the PLIC specification, which register a load or store at each of them reaches |
| `PlicProof.AssertedIffLineUp` | vmm/emulate_plic.c:41-52 | After any events a source is asserted, and pending, if and only if the last event on its line raised it, or it was asserted at the start and none came |
| `PlicProof.RaisedIsClaimed` | vmm/emulate_plic.c:41-100 | Raising a line makes its source one a context will claim if and only if it is unclaimed, enabled and above the threshold there; lowering it never does |
| `Sv32Proof.PhysicalAddress` | vmm/mmu.h:85-86 | Or-ing the page offset into the entry's frame is adding it, because every frame a walk finds is aligned to its page size |
| `Sv32Proof.WalkOfPage` | vmm/mmu_pagewalker.c:65-143 | A walk depends on the page only: every address of the page it found gives the same entry and slot |
| `Sv32Proof.AccessKeepsAgreement` | vmm/mmu_pagewalker.c:95-140 | Invalidation establishes, and every access keeps, that each valid slot holds what a fresh walk of its tag gives |
| `Sv32Proof.MissThenWalk` | vmm/mmu.h:71-85 | After a miss a successful walk makes the second lookup return exactly the new entry, and a failed one is a page fault |
| `Sv32Proof.TaggedHitIsRight` | vmm/mmu_tlb.h:63-69 | A hit whose tag matches the address gives the walk's answer |
| `Sv32Proof.FreshIffNoClash` | vmm/mmu_tlb.h:49-69 | From an invalidated TLB every run of accesses to a set of addresses gets the answers of fresh walks, page faults included, if and only if no address is answered wrongly from the entry of another that shares a slot |
| `Sv32Proof.SeparatePagesDoNotClash` | vmm/mmu_tlb.h:49-69 | Addresses that share slots only with their own page satisfy that condition |
| `Sv32Proof.AliasedPages` | vmm/mmu_tlb.h:49-69 | With any power-of-two capacity, two pages one capacity apart share a slot and the second gets the first one's frame, which is wrong when it is not mapped or is a small page with another frame |
| `Sv32Proof.RegionOfFrame` | vmm/mmu_pagewalker.c:65-143 | The region an access is answered with is the one behind the frame of its page |
| `Sv32Standard.WalkIsStandard` | vmm/mmu_pagewalker.c:65-143 | For tables below 4 GiB the walk agrees with section 4.3.2 of the Privileged Architecture v1.12, on addresses and faults, if and only if the entries on the way have no reserved encoding, are no misaligned superpage, and end in a leaf |
| `Sv32Standard.MisalignedIsTaken` | vmm/mmu_pagewalker.c:65-143 | A superpage entry 0x403 is found where the standard faults |
| `Sv32Standard.WriteOnlyIsTaken` | vmm/mmu_pagewalker.c:65-143 | So is an entry 0x005, writable and not readable |
| `Sv32Standard.PointerIsTaken` | vmm/mmu_pagewalker.c:65-143 | So is a pointer at the last level |
| `Sv32.TlbTable.Invalidate` | vmm/mmu_tlb.c:6-15 | The loop clears every valid bit and nothing else |
| `Sv32.TlbTable.VaToTlbEntry` | vmm/mmu_tlb.h:49-69 | The small-page slot, then the large-page slot, no tag compared |
| `Sv32.TlbTable.WalkPageTable` | vmm/mmu_pagewalker.c:65-143 | The two-level walk fills the slot of its page size, or returns its error and changes nothing |
| `Sv32.TlbTable.TranslateAddress` | vmm/mmu.h:63-90 | Lookup, walk on a miss, second lookup, page fault |
| `Reservations.ReservationTable.MakeReservation` | vmm/translate_amo.c:51-62 | Takes the first free slot, or the next one round robin when all are taken |
| `Reservations.ReservationTable.FindReservation` | vmm/translate_amo.c:73-80 | Finds the first live reservation of the address by the hart |
| `Reservations.ReservationTable.StoreConditional` | vmm/translate_amo.c:66-90 | Stores and clears the reservation exactly when one is found and the store goes through, and changes nothing otherwise |
| `Reservations.ScMatchedToLr` | vmm/translate_amo.c:44-90 | In every run from an empty table, overflow and repeated reservations included, successful store-conditionals are matched one to one with earlier load-reserveds of the same address by the same hart |
| `Reservations.StoresDoNotMatter` | vmm/translate_amo.c:44-90 | Over every run, taking all ordinary stores out changes no table and the outcome of no store-conditional |
| `Reservations.ScSucceedsExactly` | vmm/translate_amo.c:44-90 | In every run from an empty table a store-conditional whose store goes through succeeds if and only if its hart reserved the address before in a slot that was neither given to another load-reserved nor used up since; otherwise it changes nothing |
| `Reservations.StoresDoNotBreakReservations` | vmm/translate_amo.c:66-90 | So after a load-reserved any stores, failed load-reserveds and store-conditionals of others leave the store-conditional succeeding |
| `Reservations.EvictsOnlyWhenFull` | vmm/translate_amo.c:42-63 | A load-reserved takes a live reservation's slot only when all 16 are live, and then the next in turn |
| `Reservations.SixteenSurvive` | vmm/translate_amo.c:42-80 | Up to 16 load-reserveds from an empty table can all be found again |
| `Atomics.AmoSlowpath` | vmm/translate_amo.c:9-32 | The callback reads its operands before it writes the destination, and stores the combination; an access that faults ends it there |
| `Atomics.SlowpathIsStandard` | vmm/translate_amo.c:9-123 | Also when rd is an operand an atomic is that of section 8.4 of the Unprivileged ISA, except exactly when its store faults after its load has changed rd |
| `Atomics.CombinedMeans` | vmm/translate_amo.c:93-123 | By function code: sum, swap, and exclusive or, disjunction and conjunction bit by bit, section 8.4 |
| `Atomics.ZeroAfterFault` | vmm/translate_amo.c:9-192 | x0 is zero afterwards unless an atomic with destination x0 loaded something else before its store faulted |
| `Atomics.LrSlowpath` | vmm/translate_amo.c:42-63 | A load-reserved writes rd and reserves the address when its load goes through, and changes nothing otherwise |
| `Atomics.ScSlowpath` | vmm/translate_amo.c:66-90 | A store-conditional writes 1 to rd without a reservation; with one it writes 0, then stores and gives the reservation up unless the store faults |
| `Atomics.ConditionalIsStandard` | vmm/translate_amo.c:42-90 | A load-reserved is that of section 8.2; so is a store-conditional, except exactly when it has a reservation, its store faults, and rd held another value than 0 |
| `Sha1.SwapOrders` | bootrom/sha1.c:53-60 | The byte-swapping expression turns a little-endian load into the big-endian word, for all bytes |
| `Sha1.CodeFIsF` | bootrom/sha1.c:64-69 | The rewritten choice and majority expressions are those of the standard |
| `Sha1.CodeRoundIsRound` | bootrom/sha1.c:64-183 | A round on the variables in their rotating roles is a round of the standard |
| `Sha1.ScheduleGoesOn` | bootrom/sha1.c:53-62 | The 16 words overwritten in a circle are always the last 16 of the 80-word schedule |
| `Sha1Standard.RotationsAreProducts` | bootrom/sha1.c:49-69 | Each rotation used is multiplication by its power of two modulo 2^32, plus what is shifted out |
| `Sha1Standard.ChoiceChooses` | bootrom/sha1.c:64-69 | The choice function takes each bit from the second or the third word as the first one says |
| `Sha1Standard.ParityAndMajority` | bootrom/sha1.c:64-69 | Parity and majority count bits, section 4.1.1 of FIPS 180-4 |
| `Sha1Standard.ConstantsAreRoots` | bootrom/sha1.c:64-69 | The four round constants are the first 32 bits of the square roots of 2, 3, 5 and 10 |
| `Sha1Standard.SumsInAnyOrder` | bootrom/sha1.c:64-69 | The sum of a round is that of its five terms |
| `Sha1Standard.BytesMakeWords` | bootrom/sha1.c:53-60 | A word is made of its four bytes, most significant first |
| `Sha1Standard.InitialBytes` | bootrom/sha1.c:202-213 | The initial value, section 5.3.1, byte by byte |
| `Sha1Final.Transform` | bootrom/sha1.c:74-197 | The in-place rounds compute the standard's compression function |
| `Sha1Stream.CountUp` | bootrom/sha1.c:228-231 | The two count words, with the carry read off the wrapped sum, hold the length in bits modulo 2^64 |
| `Sha1Stream.UpdatedRepresents` | bootrom/sha1.c:218-246 | An update of any length below 2^32 - 64 appends its bytes to the message the context stands for |
| `Sha1Stream.ChunkingDoesNotMatter` | bootrom/sha1.c:218-246 | However a message is cut into chunks the context ends with the same state, counts and buffered bytes |
| `Sha1Final.FinalIsDigest` | bootrom/sha1.c:251-297 | Padding through single-byte updates and the saved count gives the digest of sections 5.1.1 and 6.1.2 of FIPS 180-4, for every message shorter than 2^64 bits |
| `Sha1Final.HashOfChunks` | bootrom/sha1.c:218-297 | Hashing any list of chunks gives the digest of their concatenation |
| `Sha1Standard.PaddedIs` | bootrom/sha1.c:251-297 | The padded message is the message, a one bit, zeros and the length, in whole blocks with less than a block to spare |
| `Sha1Standard.LengthIsBigEndian` | bootrom/sha1.c:251-297 | The length field is the 64-bit length, most significant byte first |
| `Sha1Standard.DigestIsWords` | bootrom/sha1.c:251-297 | The digest is the five words, most significant byte first |
| `Sha1Final.Sha1Context.Update` | bootrom/sha1.c:218-246 | The context is updated in place as the value-level update says |
| `Sha1Final.Sha1Context.Final` | bootrom/sha1.c:251-297 | The digest bytes of the finished context |
| `Sha1Final.HashString` | bootrom/sha1.c:302-315 | The one-shot function, a byte at a time, returns the digest |
| `FdtProof.AddTokenRepresents` | vmm/fdt.c:51-105 | Adding a token appends its encoding and its name and leaves only zeros behind both cursors, which terminates and pads the next one |
| `FdtProof.BuildRepresents` | vmm/fdt.c:18-105 | Building fails exactly when the structure does not fit its buffer or the names do not fit theirs with a byte to spare; otherwise the buffers say what was added |
| `FdtProof.EndFinishes` | vmm/fdt.c:108-132 | Finishing succeeds exactly when end token and strings still fit, and makes header, structure and strings with their offsets and sizes |
| `FdtProof.ScanReturnsTokens` | vmm/fdt.c:361-409 | Scanning any memory that starts with a finished blob returns exactly the tokens, names, lengths and values |
| `FdtProof.BuildScanRoundTrip` | vmm/fdt.c:18-409 | Round trip: if building and finishing succeed, the scanner returns exactly the tokens built, every header field from 0xd00dfeed on is that of section 5.2 of the Devicetree Specification (version 17, compatible with 2, boot cpu 0), offsets and sizes are those of the parts, and the 16 bytes at the reservation offset are zero |
| `FdtProof.TokenLayout` | vmm/fdt.c:51-105 | Every token has the number, the fields and the padding of section 5.4.1 |
| `FdtProof.WordsAreBigEndian` | vmm/fdt.c:51-105 | Words are stored most significant byte first |
| `Fdt.FdtBuilder.constructor` | vmm/fdt.c:18-48 | Zeroed buffers with the draft header and an empty reservation block |
| `Fdt.FdtBuilder.AddBeginNode` | vmm/fdt.c:51-61 | Writes token and name, for any name, relying on the zeros behind them |
| `Fdt.FdtBuilder.AppendWord` | vmm/fdt.c:87-105 | Writes a one-word token |
| `Fdt.FdtBuilder.AddProperty` | vmm/fdt.c:63-85 | Writes token, length, name offset and value, and the name, with sizes computed in 32 bits, for any name and any value of a 32-bit length |
| `Fdt.FdtBuilder.AddEnd` | vmm/fdt.c:108-132 | Writes the end token, completes the header and appends the strings |
| `Fdt.ScanFdtTokens` | vmm/fdt.c:361-409 | The scanner's loop ends and finds what the recursive scan defines |

## Left out

- Machine code as bytes: a block is its instruction list, its size and its parameters, and the buffer lists blocks by the offset of their first byte. Sizes are arbitrary positive numbers.
- The breakpoint table.
- VmmLoop.RunIsReferenceRun: what the called functions do is arbitrary, not computed; they are taken to leave register zero zero when they raise a trap (`Atomics.ZeroAfterFault` says when an atomic does), and the words of a guest are instructions the translators know.
- CacheProof.PrefetchKeepsLayout: nothing is said of a unit one of whose blocks lies outside the window of the code translated so far; `PcIndex.CycleWithoutWindow` shows why.
- The native debugger and the trace build, which add a call to every block.
- TrapProof.RunKeepsSound: what a fetch returns is a function of satp and address here; `Sv32Proof.FreshIffNoClash` says when the TLB makes it one.
- RelayProof.TimerIsRelayed: one hart, a guest that keeps to the supervisor registers and does not write the CLINT itself, runs in which the 64-bit clock does not wrap, and doorbell calls for harts that have a doorbell; other calls store beyond the doorbells, anywhere in the address space.
- RelayProof.HarmlessIsExact: a doorbell store beyond the CLINT, which can reach the writable firmware memory, is taken to do nothing.
- TimerRelay.Proceed: the idle loop is one event for each of its turns, without its limit of 64 and its console polls.
- PrivilegeStandard.CsrAgrees: the read-only csr addresses and the trap bits of mstatus (TVM, TSR), which the emulator does not have.
- Reservations.ScMatchedToLr: hart numbers below 64, the emulator's limit, fit the eight bits the table keeps.
- Fdt.FdtBuilder.AddProperty: where a room that wraps in 32 bits lets the code write outside its buffer, the model fails instead.
- FdtProof.BuildScanRoundTrip: names whose size with the terminator fits 32 bits; a longer one is cut without its terminator.
- PmRegion.RegionTable.Register: what becomes of a table that a covering region has spoiled when more regions are registered.
- Fdt.ScanFdtTokens: a read outside the blob is an explicit failure, and the blob starts at an aligned address.
- Sv32Standard.WalkIsStandard: permissions, accessed and dirty bits are not part of the comparison, and physical addresses stop at 4 GiB, which is all the emulator models.
- Page permissions, accessed and dirty bits, and the unimplemented atomics: the code has none.
- Plain storage registers (scratch, counters, pmp, identification): they would only add get and put.
- What memory and devices do with an access after translation of its address, and the alignment checks.
- UART, system controller, rom, configuration, logging, file loading and terminal handling.
- Several harts running at once: the vmm runs one; tables indexed by hart keep their index.
