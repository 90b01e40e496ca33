# A verified model of OlaVM's trace generators, constraints and executors

OlaVM runs an algebraic RISC program, writes down its execution as tables over the Goldilocks field and
checks those tables with polynomial constraints, lookups and cross-table products. Most of its
correctness sits where two pieces of code that were written separately have to agree: an executor and a
constraint set, a prover and a verifier, an assembler and a loader, a cache and a plain map. This project
models those pieces and proves that they agree, for all programs, logs, tables, challenges and runs; where
they do not, it gives the exact condition under which they do and an input for which they do not.

`dafny verify dfyconfig.toml` checks the whole project.

## What is proved

**The field.** `Goldilocks` proves that 2^64 - 2^32 + 1 is prime, so that a product of factors is zero in
the field exactly if a factor is. No constraint argument rests on an assumption about the field.

**Folding and challenges.** `Consumer` models the accumulators that fold the constraints of a row, and
proves that a polynomial with as many roots as coefficients is zero; hence accumulators that vanish for
enough challenges mean that every constraint meant for the row holds, and conversely.

**Lookups.** `Lookup` models the merge that builds the permuted columns and the constraint on them: the
result is a permutation of the arguments whatever they are, and the constraint holds on it exactly if every
input occurs in the table. Any columns that satisfy the constraint force the inputs into the table.

**Cross-table lookups.** `GrandProduct`, `ProductSound` and `CrossTable` model the running products, the
checks on them, and the three walks of the prover, the constraint checker and the verifier over the list
of lookups. The walks meet the columns in the same order and use up all of them; a column passes the checks
exactly if it is the column of partial products; the verifier accepts whenever the filtered rows agree
as multisets; and if it accepts any columns that pass the checks for enough challenges, the rows agree.

**Memory.** From any log the executor can produce, the generated and padded memory table satisfies every
memory constraint on every row, exactly if the log is not empty (`MemoryTableHolds`, `ProveMemory`). The
range checks that the generator emits are the ones the table looks up, except, exactly, when the lowest
address is in the heap (`RangeChecksMatch`, `HeapOnlyFails`). In any table that satisfies the constraints a read sees the last write
(`ReadsSeeWrites`).

**CPU.** For every run of the core instructions that finishes at END, all CPU constraints hold on all
rows, padding and wrap-around included, exactly if every executed word has one-bit register fields and no unused
ones, every condition of a conditional jump is a bit and no factored offset overflows 64 bits (`RunHolds`); an
END word with a stray register bit already breaks the table (`EndRuns`). The same run leaves a log for which the
memory theorem holds (`RunMemoryHolds`). Instruction words decode uniquely (`WordsDecodeUniquely`).

**Range, bitwise and comparison tables.** The limb tables and their lookups hold for every list of
values. The range-check table holds exactly if all values have 32 bits. The bitwise table holds exactly if all
operands have 24 bits, although it is meant for 32: limb 3 is written one column too far
(`GenerateBitwiseTrace`, `TopLimbIsLost`). What the constraints force is the full 32-bit result
(`TableSound`).

**Contract calls and storage.** `Executor` and `TxManager` model the contract executor and the
environment stack: indices increase, a new environment finds its header on the tape, delegates inherit the
storage address along the chain, a run that succeeds while tracing also succeeds without, and a view call changes nothing
at any depth, even when it fails. `Storage` proves that the two caches over the disk refine a plain map.
`BatchReplay` says exactly when the logs of a batch replay from disk to the committed state: if and only if every
failed transaction before the last success leaves what it found (`BatchReplays`, `FinishedBatchReplays`), and what the
closing transaction commits (`FinishCommits`). `RunAccesses` ties the transactions of a batch to executor runs.

**Assembler.** Sorting, relocation, encoding, writing out, reading back and placing preserve the
meaning of label-level programs: from the rows and prophets of a bundle to the run, the loaded program simulates the
label machine step for step, for all instructions, prophets included, in every mode
(`AssembledProgramRuns`, `AssembledProgramResumes`). A prophet ends up at the instruction before its label exactly if
there is one and no later prophet has the same host (`ProphetBeforeLabel`). Instructions survive the round trip
through words (`DecodeEncode`).

**Hashing.** The poseidon instruction, the slice hash and the program-chunk table compute the same overwrite-mode
sponge for one program of any length. For any list of programs the chunk table satisfies all its constraints exactly
if every program that is not empty starts with an empty capacity (`ChunkTableHolds`); since the state is carried on
from program to program, a second program fails as soon as the first one fills the capacity (`SecondProgramFails`).
Tree-key accumulators never wrap and reach each limb.

## How to read the model

A constraint is an integer polynomial in the canonical entries of a row; `Vanishes` says that it is zero in
the field. Constraints on all rows are cyclic; transition constraints do not apply to the last row. Functions
that update data step by step in the system are methods here, on arrays or on objects (`MemoryTree`,
`Process`, `CachedStorage`, `BlockExeManager`, `ContractExecutor`, `TxExeManager`, `ConstraintConsumer`), each proved
against a function or a predicate that the theorems are about. Hash functions, the Poseidon permutation, signature
checks, prophet code and deployed programs are parameters. Random challenges are parameters, too: statements
hold for all of them, or for every sufficiently large set of them.

Files: `Goldilocks`, `Air`, `Consumer`; `Lookup`, `GrandProduct`, `ProductSound`, `CrossTable`; `MemoryAir`,
`MemoryLog`, `MemoryTable`, `MemoryTrace`, `MemoryComplete`; `Words`, `CpuAir`, `Cpu`, `CpuStep`, `CpuTrace`, `CpuComplete`,
`CpuWellFormed`, `CpuMemory`, `CpuProcess`, `CpuDecode`; `RangeCheck`, `BitOps`, `Bitwise`, `BitwiseSound`, `Compare`;
`Storage`, `BatchReplay`, `Isa`, `Executor`, `TxManager`, `RunAccesses`, `ExecutorObjects`; `Asm`, `AsmEncode`,
`AsmMachine`, `AsmSound`; `Sponge`, `ProgChunk`, `TreeKeyTrace`; `Common`.

## Model

| member | source | states |
|---|---|---|
| Goldilocks.OrderIsPrime | README.md:26 | the field order has no proper divisor |
| Goldilocks.ZeroProduct | README.md:26 | a product is zero in the field exactly if a factor is |
| Consumer.ConstraintConsumer.constructor | circuits/src/stark/constraint_consumer.rs:35-48 | a consumer starts with no constraint and zero accumulators |
| Consumer.ConstraintConsumer.Emit | circuits/src/stark/constraint_consumer.rs:54-77 | after every constraint of any kind each accumulator is the polynomial of all filtered constraints at its own challenge |
| Consumer.RootsBound | circuits/src/stark/constraint_consumer.rs:10-17 | constraints whose combination vanishes for as many different challenges as there are constraints all vanish |
| Consumer.AccumulatorsDecide | circuits/src/stark/constraint_consumer.rs:54-77 | the accumulators of a row are zero if all constraints that apply to it hold, and, for enough challenges, only if they do; transition, first-row and last-row constraints apply to the right rows only |
| Lookup.HoldsWhenAligned | circuits/src/stark/lookup.rs:13-34 | the lookup constraint from alignment of every entry with its table entry or its predecessor |
| Lookup.InputsAreInTable | circuits/src/stark/lookup.rs:13-34 | a column that satisfies the constraint has only values of the table column |
| Lookup.LookupSound | circuits/src/stark/lookup.rs:13-34 | permuted columns that satisfy the constraint force every input into the table |
| Lookup.Merge | circuits/src/stark/lookup.rs:84-124 | the two-pointer walk places every table value that an input needs, and keeps the rest with the places still open |
| Lookup.PermutedCols | circuits/src/stark/lookup.rs:68-132 | for all columns of equal length: sorted inputs, both results permutations of the arguments, the final zip matches, and the constraint holds exactly if every input is in the table |
| Lookup.CompleteOrUnsound | circuits/src/stark/lookup.rs:13-34 | for permuted columns in which every input that is in the table sits at its own value or below an equal input: the constraint holds exactly if every input is in the table |
| GrandProduct.PartialProducts | circuits/src/stark/cross_table_lookup.rs:605-632 | fails exactly on a filter value that is not a bit; otherwise entry i is the product of the factors of rows 0 to i |
| GrandProduct.ChecksPinProducts | circuits/src/stark/cross_table_lookup.rs:701-742 | with binary filters a column passes the first-row and transition checks exactly if it is the column of partial products |
| GrandProduct.ProductIsCombined | circuits/src/stark/cross_table_lookup.rs:605-632 | the running product is that of the combined rows that pass the filter |
| GrandProduct.ProductOfMultiset | circuits/src/stark/permutation.rs:59-71 | the product depends on the multiset of rows only |
| ProductSound.ProductsDetermine | circuits/src/stark/cross_table_lookup.rs:605-632 | products of shifted values that agree at more points than there are values come from the same multiset |
| ProductSound.ReducedRowsDetermined | circuits/src/stark/permutation.rs:59-71 | for a fixed beta, products are equal for more gammas than rows exactly if the reduced rows agree as multisets |
| ProductSound.RowsDetermined | circuits/src/stark/permutation.rs:59-71 | rows of the same width that reduce to the same element for as many betas as entries are the same row |
| ProductSound.ProductsDecideRows | circuits/src/stark/cross_table_lookup.rs:605-632 | the rows of two tables agree as multisets if and only if their products are equal for enough betas and gammas |
| CrossTable.CrossTableLookupData | circuits/src/stark/cross_table_lookup.rs:545-603 | the prover files, per table, the partial products of each lookup, challenge and table in the common order |
| CrossTable.FromProofs | circuits/src/stark/cross_table_lookup.rs:651-698 | the checker takes the opened values in the same order; no iterator runs dry exactly if there are enough of them |
| CrossTable.NumCtlZs | circuits/src/stark/cross_table_lookup.rs:503-510 | the announced number of columns of a table is the number that is walked |
| CrossTable.VerifyCrossTableLookups | circuits/src/stark/cross_table_lookup.rs:872-905 | every value consumed is that of the lookup, challenge and table walked, nothing is left over, and the verdict is that of the product equations |
| CrossTable.CheckedAgainstOwn | circuits/src/stark/cross_table_lookup.rs:651-698 | each column is checked with the challenge and the columns it was made from, and passes on every row |
| CrossTable.EqualRowsBalance | circuits/src/stark/cross_table_lookup.rs:872-905 | if the filtered rows agree as multisets, the verifier's equation holds for every challenge |
| CrossTable.BalanceMeansEqualRows | circuits/src/stark/cross_table_lookup.rs:872-905 | if the equation holds for a decisive set of challenges, the filtered rows agree as multisets |
| CrossTable.PassingEnds | circuits/src/stark/cross_table_lookup.rs:701-742 | a column that passes the checks of its slot ends in the product of the slot, and the columns of the prover pass |
| CrossTable.LastValues | circuits/src/stark/verifier.rs:192 | the values handed to the verifier are the last entries of the opened columns in the order of the walk, which are the products if the columns pass their checks |
| CrossTable.Accept | circuits/src/stark/cross_table_lookup.rs:872-905 | the verifier on any opened columns that pass the checks, whoever made them: acceptance if the rows of every lookup agree, and agreement if it accepts with decisive challenges |
| CrossTable.ProveAndVerify | circuits/src/stark/cross_table_lookup.rs:545-603 | the same with the columns of the prover, which pass the checks for all challenges |
| MemoryAir.ReadsSeeWrites | circuits/src/memory/memory_stark.rs:278-289 | in any table that satisfies the read constraints a row that is not at the heap pointer carries the value of the nearest write row above it, with rows of the same address between, or the walk ends in a first row that is not read-write |
| MemoryLog.MemoryTree.Read | core/src/vm/memory.rs:33-71 | a read returns the last value and logs itself, or fails and logs nothing |
| MemoryLog.MemoryTree.Write | core/src/vm/memory.rs:73-104 | a write logs itself and changes the value at its own address only |
| MemoryLog.AppendOk | core/src/vm/memory.rs:33-104 | every read or write below the prophet region keeps the log well formed |
| MemoryLog.InitialLogOk | executor/src/lib.rs:2111-2123 | the log that holds the first heap-pointer write is well formed |
| MemoryTable.VisitCell | executor/src/trace.rs:43-197 | one turn of the inner loop appends the annotation of one access and its range checks |
| MemoryTable.VisitEntry | executor/src/trace.rs:39-199 | one turn of the outer loop handles all accesses of one address, or stops at the first value out of range |
| MemoryTable.SortAndAnnotate | executor/src/trace.rs:39-201 | the table is the annotation of all accesses exactly if all range checks are in range |
| MemoryTable.GenMemoryTable | executor/src/trace.rs:20-201 | the whole generator, with both errors: no heap pointer, and a value out of range |
| MemoryTrace.PadRows | circuits/src/generation/memory.rs:111-145 | the moving-address loop writes the padding rows and touches no other |
| MemoryTrace.GenerateMemoryTrace | circuits/src/generation/memory.rs:8-155 | the columns are the filled rows and the padding, to the next power of two |
| MemoryComplete.ExecutorAccesses | executor/src/trace.rs:33-43 | the entries of an executor log, without the first heap-pointer write, are well-formed accesses |
| MemoryComplete.MemoryTableHolds | circuits/src/memory/memory_stark.rs:93-333 | the padded table of well-formed accesses satisfies all constraints on all rows exactly if there is an access |
| MemoryComplete.ProveMemory | circuits/src/generation/memory.rs:8-155 | from any executor log through both generators: the exact result, and a table that holds exactly if it is not empty |
| MemoryComplete.RangeChecksMatch | executor/src/trace.rs:88-194 | sort checks emitted and looked up always agree as multisets; region checks do exactly if the lowest address is below the heap |
| MemoryComplete.HeapOnlyFails | executor/src/trace.rs:88-194 | one write anywhere in the heap and nothing below it: the region checks emitted and looked up differ |
| Words.EncodeBound | circuits/src/cpu/cpu_stark.rs:540-577 | encodings stay below 2^63 and below the field order |
| Words.EncodeUnique | circuits/src/cpu/cpu_stark.rs:540-577 | encodings that agree in the field have the same opcode and selectors |
| Words.ExtractSelectors | executor/src/contract_executor.rs:1760-1769 | shift and mask give the bits of each field, and re-encode to the word |
| Words.ExtractEncodes | executor/src/contract_executor.rs:1760-1769 | encoding the extracted bits of any 63-bit word gives the word back |
| Words.GetIndex | executor/src/decode.rs:18-27 | the loop finds the highest set bit, or reports none |
| CpuDecode.OpcodeRange | circuits/src/cpu/cpu_stark.rs:458-530 | a row whose opcode selectors hold has a 32-bit opcode |
| CpuDecode.WordsDecodeUniquely | circuits/src/cpu/cpu_stark.rs:458-620 | two main rows with the same instruction word agree on immediate flag, opcode and all thirty selectors |
| Cpu.DecodeProgram | executor/src/lib.rs:536-589 | the decoded program has every instruction a walk over the words reaches, or the error of a word that the walk reaches |
| Cpu.ConsumesNext | executor/src/decode.rs:29-211 | a two-word instruction is never decoded from the last word |
| CpuProcess.Process.constructor | executor/src/lib.rs:259-295 | a process starts in the initial state, with the heap pointer that the loop writes first |
| CpuProcess.Process.MoveTo | executor/src/lib.rs:591-633 | mov leaves the state and the recorded columns of the specification |
| CpuProcess.Process.Combine | executor/src/lib.rs:787-833 | the same for add and mul |
| CpuProcess.Process.Compare | executor/src/lib.rs:635-690 | the same for eq and neq, with the inverse recorded |
| CpuProcess.Process.Check | executor/src/lib.rs:692-731 | the same for assert, with its error |
| CpuProcess.Process.Jump | executor/src/lib.rs:764-785 | the same for jmp |
| CpuProcess.Process.Branch | executor/src/lib.rs:733-762 | the same for cjmp |
| CpuProcess.Process.CallFunction | executor/src/lib.rs:835-868 | the same for call, with two reads or writes of the frame |
| CpuProcess.Process.Return | executor/src/lib.rs:870-885 | the same for ret |
| CpuProcess.Process.Load | executor/src/lib.rs:954-1015 | the same for mload |
| CpuProcess.Process.Store | executor/src/lib.rs:887-952 | the same for mstore |
| CpuProcess.Process.ExecuteOne | executor/src/lib.rs:2179-2214 | dispatch: one instruction does what the specification of its kind does |
| CpuProcess.RunIsDetermined | executor/src/lib.rs:2097-2332 | a program has one sequence of states, and every run is a part of it up to its END |
| CpuProcess.Execute | executor/src/lib.rs:2097-2332 | a loop that reports END produced the steps of a run; every other report names the state it stopped in and why |
| CpuTrace.GenerateCpuTrace | circuits/src/generation/cpu.rs:11-218 | the columns are one row per step and equal padding rows to the next power of two |
| CpuComplete.StepHolds | circuits/src/cpu/cpu_stark.rs:458-791 | the row of any successful step satisfies decoding and effect constraints exactly if it re-encodes and its condition and offset are sane |
| CpuComplete.EndHolds | circuits/src/cpu/cpu_stark.rs:458-791 | an END row and every padding row hold exactly if the END word has no stray bits |
| CpuComplete.OverflowShows | executor/src/lib.rs:928 | a 64-bit product that wraps differs in the field, always |
| CpuComplete.CpuTableHolds | circuits/src/cpu/cpu_stark.rs:340-948 | for every run, every constraint holds on every row exactly if every executed step fits |
| CpuWellFormed.WellFormedReencodes | circuits/src/cpu/cpu_stark.rs:540-577 | the recorded selectors add up to the word exactly if the word has one-bit fields and no field its instruction does not use |
| CpuWellFormed.RunHolds | circuits/src/cpu/cpu_stark.rs:340-948 | the same theorem in terms of the words and the register values at each step |
| CpuWellFormed.EndRuns | circuits/src/cpu/cpu_stark.rs:540-577 | the run of an END word with anything in its register fields, and that its table holds exactly if all three fields are empty |
| CpuMemory.ExecKeepsLog | executor/src/lib.rs:591-1015 | every instruction keeps the memory log well formed |
| CpuMemory.RunKeepsLog | executor/src/lib.rs:2097-2332 | the memory log is well formed in every state of every run |
| CpuMemory.RunMemoryHolds | circuits/src/memory/memory_stark.rs:93-333 | end to end: the memory table of a finished run satisfies all memory constraints exactly if the run accessed memory |
| RangeCheck.LimbsAddUp | core/src/utils.rs:18-25 | two 16-bit limbs add up to a value in the field exactly if it has 32 bits |
| RangeCheck.FillRows | circuits/src/generation/builtin.rs:264-276 | the recorded rows are on top of zeros |
| RangeCheck.FillFixed | circuits/src/generation/builtin.rs:277-293 | the fixed column has all 16-bit values and repeats the last one |
| RangeCheck.GenerateRcTrace | circuits/src/generation/builtin.rs:249-316 | both lookups hold for every list of values; the table holds exactly if all values have 32 bits |
| RangeCheck.RangeCheckSound | circuits/src/builtins/rangecheck/rangecheck_stark.rs:33-63 | in a table that holds every value has 32 bits and the limbs are its limbs |
| BitOps.LimbOfOp | core/src/utils.rs:9-16 | a limb of a bitwise result is the operator on the limbs of the operands |
| BitOps.JoinOfOps | circuits/src/builtins/bitwise/bitwise_stark.rs:58-75 | operating limb by limb is operating on the whole number |
| Bitwise.RowWritten | circuits/src/generation/builtin.rs:55-76 | what each column holds after a row is written, with limb 3 replaced by the next range |
| Bitwise.RecordRows | circuits/src/generation/builtin.rs:55-76 | the row columns hold the recorded rows; the columns of limb 3 stay zero |
| Bitwise.FillFixed | circuits/src/generation/builtin.rs:81-117 | the nested loops fill three blocks with all 8-bit operands and results, and the 8-bit column |
| Bitwise.TripleFixed | circuits/src/generation/builtin.rs:81-117 | the limbs of any executed instruction, and of padding, are a row of the fixed table |
| Bitwise.CompressRows | circuits/src/generation/builtin.rs:133-158 | the compressed columns are the combination of their columns on every row |
| Bitwise.Permute | circuits/src/generation/builtin.rs:161-195 | one lookup gets permuted columns that satisfy the constraint and leaves the others alone |
| Bitwise.GenerateBitwiseTrace | circuits/src/generation/builtin.rs:35-206 | for any instructions and any challenge all sixteen lookups and all compressed values hold; the whole table holds exactly if all operands are below 2^24 |
| BitwiseSound.CompressedLookupSound | circuits/src/builtins/bitwise/bitwise_stark.rs:77-88 | compressed lookups that hold for enough challenges put every quad into the fixed table |
| BitwiseSound.FixedRowIsResult | circuits/src/generation/builtin.rs:81-117 | a row of the fixed table under an operator's tag is a result of that operator |
| BitwiseSound.RowIsRight | circuits/src/builtins/bitwise/bitwise_stark.rs:58-75 | quads in the fixed table and sums that hold force 32-bit operands and the 32-bit result |
| BitwiseSound.RowSound | circuits/src/builtins/bitwise/bitwise_stark.rs:58-88 | the same from the compressed lookups of the row, for enough challenges |
| BitwiseSound.TableSound | circuits/src/builtins/bitwise/bitwise_stark.rs:45-190 | if the recorded columns can be completed to tables that hold for enough challenges, with permuted columns that are permutations, every row with an operator's tag has 32-bit operands and the 32-bit result |
| BitwiseSound.TopLimbIsLost | circuits/src/generation/builtin.rs:62-75 | the operand 2^24 breaks the table for every operator |
| Compare.ExecuteGte | executor/src/lib.rs:1126-1203 | the comparison, its row and its range-check failure, exactly when the operands are 2^32 or more apart; the row holds |
| Compare.RowDecides | circuits/src/builtins/cmp/cmp_stark.rs:30-42 | a row that holds with a 32-bit difference decides the comparison right exactly if the operands are less than 2^32 apart |
| Compare.GenerateCmpTrace | circuits/src/generation/builtin.rs:208-247 | padding adds rows that hold |
| Storage.CachedStorage.constructor | executor/src/ola_storage.rs:256-268 | both caches and both logs start empty |
| Storage.CachedStorage.GetPreValue | executor/src/ola_storage.rs:279-297 | the visible value; filling the block cache changes neither the visible nor the committed map |
| Storage.CachedStorage.Sload | executor/src/ola_storage.rs:365-380 | the visible value, logged, with the view unchanged |
| Storage.CachedStorage.Sstore | executor/src/ola_storage.rs:299-322 | updates the visible map at one key, leaves the committed map alone, logs the previous value and the kind |
| Storage.CachedStorage.OnTxSuccess | executor/src/ola_storage.rs:392-395 | commits: the committed map becomes the visible map |
| Storage.CachedStorage.ClearTxCache | executor/src/ola_storage.rs:397-400 | rolls back: the visible map becomes the committed map |
| Storage.CommitAndRollback | executor/src/ola_storage.rs:392-400 | commit and clear as laws on the two views |
| Storage.LoadKeepsView | executor/src/ola_storage.rs:279-297 | reads change no view |
| BatchReplay.AccessesRefine | executor/src/ola_storage.rs:299-380 | any accesses to the layered storage show and log what the same accesses do to a plain map |
| BatchReplay.LogsReplay | executor/src/ola_storage.rs:299-322 | the log of any accesses is right entry by entry, pre-values and kinds included, and replays to what the accesses wrote |
| BatchReplay.AccessLogged | executor/src/ola_storage.rs:299-322 | every access keeps the log a faithful replay of the view, with pre-values and kinds right at their point |
| Storage.BlockExeManager.Invoke | executor/src/batch_exe_manager.rs:59-80 | a transaction clears, runs, and commits and collects its log only on success |
| Storage.BlockExeManager.FinishBatch | executor/src/batch_exe_manager.rs:82-111 | the last transaction runs without clearing; on success all logs are handed out |
| BatchReplay.BatchIs | executor/src/batch_exe_manager.rs:59-80 | what every batch commits, shows and collects: the contents of the successful transactions, and the logs of all transactions up to the last success |
| BatchReplay.DifferenceStays | executor/src/ola_storage.rs:299-322 | logs that are right over two contents never touch a key on which these differ |
| BatchReplay.BatchReplays | executor/src/batch_exe_manager.rs:59-80 | for every batch: the collected logs are right and replay from disk to the committed state if and only if every failed transaction before the last success leaves the contents it found |
| BatchReplay.FinishedBatchReplays | executor/src/batch_exe_manager.rs:82-111 | the same for every finished batch, over all failed transactions but the very last |
| BatchReplay.FailureRollsBack | executor/src/batch_exe_manager.rs:59-80 | a failed transaction changes neither the committed state nor the collected log, and clearing gives the old view back |
| BatchReplay.FinishStartsClean | executor/src/batch_exe_manager.rs:82-111 | the closing transaction sees the committed state if and only if the batch is empty or its last transaction succeeded or leaves the contents it found |
| BatchReplay.FinishIs | executor/src/batch_exe_manager.rs:82-111 | the closing transaction commits and logs as if it were one transaction with a failed last one |
| BatchReplay.FinishCommits | executor/src/batch_exe_manager.rs:82-111 | closing commits the contents of the successful transactions and its own if and only if it writes every key that a failed last transaction changed |
| BatchReplay.FailedWriteIsCommitted | executor/src/batch_exe_manager.rs:82-111 | a write of a failed transaction that the closing transaction commits |
| BatchReplay.FailedLogPollutes | executor/src/ola_storage.rs:397-400 | a log of a failed transaction that makes the replay differ from the committed state |
| Executor.Apply | executor/src/contract_executor.rs:249-293 | applying a difference keeps mode, context, clock and events and only appends to the tape |
| Executor.ApplyConcat | executor/src/contract_executor.rs:249-293 | differences are applied in order, and the first failure stops |
| Executor.RunOneStep | executor/src/contract_executor.rs:199-247 | a step keeps mode and context, advances the clock by one and only appends to the tape |
| Executor.Resume | executor/src/contract_executor.rs:124-197 | the bounded loop ends in a call or in an end, later than it started |
| Executor.CallStep | executor/src/contract_executor.rs:1272-1359 | a contract call appends exactly caller storage, callee code and callee storage to the tape |
| Executor.CallResume | executor/src/contract_executor.rs:199-247 | whenever the loop stops at a call the tape ends with those words |
| Executor.StepWithoutTrace | executor/src/contract_executor.rs:295-364 | a step that succeeds while tracing succeeds without, with the same outcome |
| Executor.ResumeWithoutTrace | executor/src/contract_executor.rs:124-197 | a resume that succeeds while tracing succeeds without, with the same outcome |
| Executor.ViewStep | executor/src/contract_executor.rs:1010-1018 | no step of a view call, successful or not, changes the storage view or emits an event |
| Executor.ViewResume | executor/src/contract_executor.rs:1397-1406 | no resume of a view call, successful or not, changes the storage view or emits an event |
| TxManager.StartInv | executor/src/tx_exe_manager.rs:130-167 | the invariant of the environment stack holds at the start |
| TxManager.RoundInv | executor/src/tx_exe_manager.rs:169-258 | every round keeps it |
| TxManager.RunInv | executor/src/tx_exe_manager.rs:155-266 | it holds in every state of every run |
| TxManager.IndicesIncrease | executor/src/tx_exe_manager.rs:334-384 | in every state of every run indices on the stack strictly increase and stay below the next one |
| TxManager.FirstStepSeesHeader | executor/src/tx_exe_manager.rs:130-153 | an environment about to take its first step finds its caller's storage address or the origin, its code address and its storage address on top of the tape |
| TxManager.DelegatesInherit | executor/src/contract_executor.rs:1272-1359 | along any chain of delegate calls the storage address is that of the first caller |
| TxManager.RoundWithoutTrace | executor/src/tx_exe_manager.rs:169-258 | a round that succeeds while tracing succeeds without |
| TxManager.InvokeThenPreExecute | executor/src/tx_exe_manager.rs:155-266 | every run in invoke mode is, state for state, a run in pre-execute mode |
| TxManager.ViewCallChangesNothing | executor/src/tx_exe_manager.rs:268-332 | in every state of a view call, at any depth, and after a failing round, there is no event and the storage view is that of the start |
| RunAccesses.StepStore | executor/src/contract_executor.rs:199-247 | the store a step leaves is the one before it after at most one access; a failing step may have filled the cache |
| RunAccesses.RunStore | executor/src/tx_exe_manager.rs:155-266 | in every state of every run the store is the initial one after some accesses, so a finished run is a transaction of a batch |
| ExecutorObjects.ContractExecutor.ApplyStateDiff | executor/src/contract_executor.rs:249-293 | the in-place update is the specified one |
| ExecutorObjects.ContractExecutor.RunStep | executor/src/contract_executor.rs:199-247 | the in-place step is the specified one |
| ExecutorObjects.ContractExecutor.ResumeLoop | executor/src/contract_executor.rs:124-197 | the in-place loop, with its clock limit, is the specified one |
| ExecutorObjects.TxExeManager.PopEnv | executor/src/tx_exe_manager.rs:334-376 | takes the top of the stack, or nothing |
| ExecutorObjects.TxExeManager.EnqueueCaller | executor/src/tx_exe_manager.rs:377-380 | pushes with the given index |
| ExecutorObjects.TxExeManager.EnqueueNewEnv | executor/src/tx_exe_manager.rs:381-385 | pushes with a fresh index |
| ExecutorObjects.TxExeManager.Turn | executor/src/tx_exe_manager.rs:169-258 | one turn of the loop is one round |
| ExecutorObjects.TxExeManager.Invoke | executor/src/tx_exe_manager.rs:155-266 | success is a complete run; otherwise the start or a round failed or the turns ran out |
| Asm.SplitScopes | assembler/src/relocate.rs:21-69 | the loop with its open scope computes the recursive cut at function labels |
| Asm.ScopesAreRows | assembler/src/relocate.rs:21-69 | the scopes are the rows in order, each starting with its own function label |
| Asm.SortScopes | assembler/src/relocate.rs:70-78 | the main scope moves to the front and all others keep their order |
| Asm.GenerateSortedScopes | assembler/src/relocate.rs:21-86 | the scopes with main in front; fails exactly without a main scope |
| Asm.ResolveLabels | assembler/src/relocate.rs:143-160 | an instruction resolves all labels that wait for it, and the last of equal labels counts |
| Asm.CallsMapped | assembler/src/relocate.rs:143-160 | every function label maps to the address counted at one of its rows, and nothing else is mapped |
| Asm.JumpsMapped | assembler/src/relocate.rs:143-160 | the same for jump labels |
| Asm.ProphetsMapped | assembler/src/relocate.rs:143-160 | the same for prophet labels and the address of the instruction before |
| Asm.AsmRelocate | assembler/src/relocate.rs:111-228 | instructions, label maps and prophet table are exactly those of the rows; fails exactly on a prophet whose label no instruction follows |
| Asm.HostTableIs | assembler/src/relocate.rs:209-221 | under every host exactly the last prophet with that host is filed, and nothing without one |
| Asm.LastHostedIff | assembler/src/relocate.rs:209-221 | a prophet is the last one with its host if and only if no later prophet has the same host |
| Asm.HostIsBefore | assembler/src/relocate.rs:143-160 | the host of a prophet label is the instruction immediately before it |
| Asm.HostOfLeadingLabel | assembler/src/relocate.rs:143-160 | before the first instruction the host is address zero, which is the instruction after the label |
| AsmEncode.LengthsAgree | assembler/src/asm.rs:16-37 | assembler and executor agree on the length of an instruction exactly if it has no offset operand outside a memory access |
| AsmEncode.DecodeEncode | core/src/program/binary_program.rs:130-400 | decoding an encoded instruction gives it back, in normal form |
| AsmEncode.TwoWordsIff | core/src/program/decoder.rs:56-68 | the first word announces a second exactly if there is one |
| AsmEncode.EncodeToBinary | assembler/src/encoder.rs:26-121 | succeeds exactly if every instruction converts, and converts each with the prophet of its address as its host |
| AsmEncode.FromInstructions | core/src/program/binary_program.rs:24-58 | writes the words of all instructions and lists their prophets with hosts, exactly if all encode |
| AsmEncode.DecodeProgram | core/src/program/decoder.rs:13-54 | the loops file the listed prophets by host and read instructions by the announced lengths |
| AsmEncode.OwnHostsMatch | core/src/program/decoder.rs:13-54 | if every prophet has the place of its instruction as host, every instruction finds its own prophet in the list and no other one |
| AsmEncode.ReadsBack | core/src/program/decoder.rs:13-54 | what was written reads back, with every prophet at its host |
| AsmEncode.Place | executor/src/contract_executor.rs:61-98 | refuses an empty program, and otherwise places every instruction at the sum of the lengths before it |
| AsmEncode.CodeMapAt | executor/src/contract_executor.rs:75-80 | every instruction is in the placed code at its address, and nothing else is |
| AsmEncode.AddressesAgree | executor/src/contract_executor.rs:75-80 | instructions are placed where the assembler counted them exactly if no earlier one has a stray offset |
| AsmEncode.StrayOffsetShifts | assembler/src/asm.rs:16-37 | an add with an offset operand is counted as two words and encoded as one |
| AsmMachine.OuterSimulates | executor/src/contract_executor.rs:845-1431 | hashing, signature checks, storage, tape, contract calls and events do the same to the shared state and to related machines |
| AsmMachine.ProphetSimulates | executor/src/contract_executor.rs:1635-1700 | an attached prophet answers and writes alike |
| AsmMachine.StepSimulates | executor/src/contract_executor.rs:199-247 | in every mode a step of the label machine is a step of the loaded program, with the same status and shared state and related machines |
| AsmMachine.AskAnswers | executor/src/contract_executor.rs:1635-1700 | for every host and layout there are prophet answers that agree on both sides |
| AsmMachine.RunSimulates | executor/src/contract_executor.rs:124-197 | every run of the label machine, contract calls in between, is a run of the loaded program with the same outcomes |
| AsmMachine.ResumeIs | executor/src/contract_executor.rs:124-197 | resume gives what the steps up to the first call or end give |
| AsmSound.AssembleAndLoad | assembler/src/encoder.rs:11-24 | the stages in a row compute the assembly of the rows and prophets |
| AsmSound.AssemblyWhen | assembler/src/encoder.rs:26-121 | assembly succeeds exactly if there is a main function and an instruction, every prophet's label is followed by an instruction, every label is known and every instruction encodes |
| AsmSound.ReadsAll | core/src/program/decoder.rs:13-54 | what was written out for a program without stray offsets reads back, every prophet at its own instruction |
| AsmSound.Linking | executor/src/contract_executor.rs:61-98 | every instruction with its prophet and every label is where the label machine expects it, and main is at address zero |
| AsmSound.StartRelated | executor/src/contract_executor.rs:61-98 | a new executor is related to the label machine at the start of main |
| AsmSound.AssembledProgramRuns | assembler/src/relocate.rs:111-228 | from rows and prophets to the run: any number of label-machine steps from main, in any mode, are executor steps of the assembled and loaded program, with the same calls, end and shared state |
| AsmSound.AssembledProgramResumes | executor/src/contract_executor.rs:124-197 | the same for resume, up to the first call or end |
| AsmSound.HostAddress | assembler/src/relocate.rs:143-160 | the host of a label is the address of the instruction before it |
| AsmSound.ProphetsLoaded | assembler/src/encoder.rs:26-121 | at every instruction the loaded code carries the last listed of the prophets whose host it is, and nothing if there is none |
| AsmSound.CarriedIff | assembler/src/relocate.rs:209-221 | a prophet is the one an instruction gets if and only if the instruction is its host and no later prophet has the same host |
| AsmSound.ProphetBeforeLabel | assembler/src/relocate.rs:143-221 | end to end: a prophet with a code of its own is in the loaded code at the instruction immediately before its label if and only if there is one and no later prophet has the same host |
| AsmSound.LeadingProphet | assembler/src/relocate.rs:143-160 | the prophet of a label before the first instruction goes to the first instruction |
| AsmSound.OnlyTheLastProphet | assembler/src/relocate.rs:209-221 | two prophet labels between two instructions: only the prophet listed last is loaded, whatever the instructions are |
| Sponge.ExecutePoseidon | executor/src/lib.rs:1596-1704 | the hash written is the recursive overwrite-mode sponge, for every non-empty input |
| Sponge.ArbitraryPoseidon | core/src/crypto/poseidon_trace.rs:190-208 | the hash of a slice is that sponge, for every input |
| Sponge.AbsorbForgets | core/src/crypto/poseidon_trace.rs:190-208 | only the part of the start that the first chunk does not overwrite matters |
| ProgChunk.GenerateProgChunkTrace | circuits/src/generation/prog.rs:158-250 | the columns are, chunk by chunk, the words topped up with the carried state, its capacity and its permutation, the flags and filters, and padding to the next power of two |
| ProgChunk.ChunksWell | circuits/src/generation/prog.rs:161-186 | what follows a chunk: the first one of a program after a result, otherwise the next eight words of the same program |
| ProgChunk.PreIsCarried | circuits/src/generation/prog.rs:199-233 | the state before the rows of a program is the sponge state after all programs before it |
| ProgChunk.ChunkTableHolds | circuits/src/program/prog_chunk_stark.rs:80-163 | for every permutation and every list of programs the table satisfies every constraint on every row, padding and wrap-around included, if and only if every program that is not empty starts with an empty capacity |
| ProgChunk.OneProgramHolds | circuits/src/program/prog_chunk_stark.rs:80-163 | with at most one program that is not empty the table always holds |
| ProgChunk.SecondProgramFails | circuits/src/program/prog_chunk_stark.rs:130-143 | for every permutation: if the output for the words of the first program has a filled capacity, a second program breaks the table |
| ProgChunk.ResultRow | circuits/src/generation/prog.rs:199-233 | the last row of every program is its result row and carries the sponge state after it |
| ProgChunk.ResultIsHash | circuits/src/program/prog_chunk_stark.rs:52-60 | in a table that holds, the result of a program of at least eight words is the hash of its words alone |
| ProgChunk.ShortResult | circuits/src/generation/prog.rs:213-217 | for every injective permutation: a program of at most eight words ends in the state its words alone give if and only if the programs before it left zeros behind its words |
| ProgChunk.HashesAgree | executor/src/lib.rs:1596-1704 | the instruction and the table of the same words as one program agree |
| TreeKeyTrace.BitOfKey | core/src/types/merkle_tree/mod.rs:106-113 | bit i of the 256-bit number of a key is a bit of limb i / 64 |
| TreeKeyTrace.AccStep | executor/src/trace.rs:307-346 | doubling and adding a bit never wraps modulo the field order |
| TreeKeyTrace.WholeLimb | executor/src/trace.rs:307-346 | at layers 64, 128, 192 and 256 the accumulator is the limb |
| TreeKeyTrace.AccessRows | executor/src/trace.rs:290-354 | all 256 rows of an access |
| TreeKeyTrace.StorageHashRows | executor/src/trace.rs:282-356 | all accesses: the root before each is the root after the previous one, and each key is accumulated in its own rows |

## Left out

- Polynomial commitments, the FRI protocol, the transcript and the recursive circuit forms of the constraints.
- Probabilities: a set of challenges is either arbitrary or large enough to decide; how likely a random one decides is not stated.
- Domain points: the filters of `ConstraintConsumer` are taken to vanish exactly outside their rows; Lagrange basis polynomials are not constructed.
- Permutation checks inside one table beyond the lookup columns, and the permutation Z polynomials in batches.
- Poseidon's permutation, the tree-key hash, ECDSA and the prophet interpreter are parameters.
- Disk, serialization, JSON, the command line and text parsing; the disk is a fixed map and programs start as parsed rows.
- The batch forms of the generators and unfinished preprocessing code.
- CPU runs of other instructions than mov, add, mul, eq, neq, assert, jmp, cjmp, call, ret, mload, mstore and end; nested environments in the CPU table; return data on the tape at END.
- Prophet memory rows other than padding: the prophet routine of the process is a stub.
- Clocks are unbounded here; they are 32-bit counters in the executor.
- Soundness of the eq and neq constraints and of the memory sort order: the constraints do not fix them.
- Filters of the range-check table and the selection columns of the bitwise and comparison tables are not tied to the CPU table.
- A program of one word: the decoder's unsigned length arithmetic fails there, and no run exists.
- Two main scopes in one program: the comparison is not an order, and the result of the sort is not specified.
- Label machine: arithmetic on code positions, words read from cells that hold code positions, raw numeric jumps and falling off a function are not defined there.
- Trace contents of the contract executor beyond success or failure of collecting them; individual error values are one failure.
- CpuProcess.Execute: takes a bound on the number of turns, because the loop of the process has none; the theorems are about all runs.
- ExecutorObjects.TxExeManager.Invoke: takes a bound on the number of turns for the same reason; the theorems are about all runs.
- CpuWellFormed.RunHolds: covers runs that end at END, not runs that leave the program.
- AsmSound.AssembleAndLoad: says nothing about programs with two main scopes.
- Asm.SortScopes: is specified for at most one main scope.
- Asm.GenerateSortedScopes: is specified for at most one main scope.
- Lookup.CompleteOrUnsound: takes the alignment that the merge establishes; LookupSound is about any permuted columns.
- BitwiseSound.RowSound: takes the compressed lookups of one row; TableSound derives them from the table.
- ProgChunk.ResultIsHash: one direction only, because different states may have equal hashes.
