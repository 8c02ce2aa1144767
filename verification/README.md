# Verification of the go-entropy core

A Dafny model of the parts of the go-entropy node whose correctness spans many functions and unbounded runs, with
proofs about it. Five parts are covered.

**The virtual machine** (`evm/`). `Machine.EVM` is the interpreter with its nested frames: `Run` turns the loop, `Charge`
checks the stack, charges constant and dynamic gas and expands memory, `Execute` runs the instruction, and calls and
creations recurse into new frames. Gas alone is the termination measure. Alongside the loop the proofs carry the stack
limit, the paid-for memory, the program counter on an instruction boundary, the refund counter that covers every cleared
slot, write protection, and the restoration of the state on every failed call. `CodeAnalysis` and `Contracts` show that the
byte-parallel jump-destination bitmap and its two caches accept exactly the JUMPDEST bytes on instruction boundaries.
`StorageGas` shows that the net price of any sequence of writes to a slot is a potential of its end points. `JumpTables`
holds the instruction tables of all forks and the EIPs that can be switched on.

**Transactions and blocks** (`blockchain/state_transition.go`, `gaspool.go`, `state_processor.go`). `StateTransition` and
`StateProcessor` run messages on that machine and account for every unit of gas and ether.

**The chain** (`blockchain/headerchain.go`, `blockchain.go`, `chain_indexer.go`, `evm.go`). Reorganisations leave exactly the
ancestor path of the new head in the canonical map and exactly its transactions in the index; the shortcuts that read
the map agree with a walk over parents; and the section indexer stays linked under every interleaving with reorganisations.

**The transaction pool** (`blockchain/tx_pool.go`, `tx_list.go`, `tx_noncer.go`). `TxLists` shows that the per-account lists
(map, nonce heap, sorted cache, spending caps) refine a plain map; `TxPricedLists` that no live remote transaction leaves the
price heaps unnoticed; `TxPools` that every known transaction is in exactly one list through every run of submissions,
promotions, demotions, removals, evictions, truncations and resets.

**The event feed** (`event/feed.go`). One array, partitioned in place while subscribers come and go.

Code that updates things step by step is modelled by classes and loops, code that computes by functions. `int` is
unbounded; where the source relies on 64-bit or 256-bit words the model wraps explicitly (`Numbers.Wrap`, `SafeAdd`,
`SafeMul`). Hash functions are one to one: a block or transaction stands for its hash. Databases are maps whose batches
are written atomically. What comes from outside (whether a channel accepts a value, what a precompile returns, the order of
map iteration and of heartbeats, blocks arriving) is left open, so that the proofs hold for every choice.

`dafny verify dfyconfig.toml` checks the whole project.

## Results worth knowing

- Interpreters share the entries of their fork's table: activating an EIP that reprices an opcode reprices it for all of
  them. EIP-2929 on a fork older than London gives opcodes that are undefined there a gas function that reads the stack
  although the entry asks for none. So a table can be run on exactly when its fork is London or later, or no interpreter
  of the fork has ever activated EIP-2929 (`JumpTables.TableOkIff`, `JumpTables.InstructionSets`).
- The EIP-2929 wrapper adds the cold-access cost without an overflow check. That is sound exactly when the rules of EIP-150
  are on (`GasTable.WrapperSoundIffEip150`); the machine requires them with such a table.
- The EIP-2929 price of SSTORE panics when the contract's address is in no access list. Neither `TransitionDb` nor `create`
  puts it there; calls do. `Machine.EVM.Run` returns a panic as an error value and says where one can come from.
- With base fees switched off and both fee caps zero, the fee rules are skipped and the coinbase's tip is minus the base
  fee. Its balance ends below zero exactly when it is less than the base fee on the gas used
  (`StateTransition.DebitIff`, `TransitionDb`); there the model stops, where the source goes on with a negative number.
- A reset of the pool keeps an account's pending nonces an interval unless it puts the state nonce back. If it does, a gap
  opens exactly under the condition of `TxPools.GapOpens` on the lists the reinjected transactions have joined; demotion
  only looks for a gap in front. What those lists are is a function of the lists before, the new state and the reinjected
  transactions (`TxPools.JoinedAll`), as long as none of them needs an eviction (`TxPools.Roomy`, for which it is enough
  that they all fit together). In a full pool the pending lists are the old ones, at most cut short; which ones are cut
  is up to the price heaps, so there the condition is stated on the lists found after reinjection
  (`TxPools.TxPool.Resettle`, `TxPools.GapExample`, `TxPools.MendedExample`, `TxPools.ReinjectedExample`).
- Eviction takes the cheapest of the floating heap although transactions join it on the way: the two ratios never let
  more than one join between two evictions (`TxPricedLists.NextInTurn`).
- The ancestor search takes the zero hash for a block above the chain (`HeaderChain.HeaderChain.GetAncestor`).

## Model

| member | source | states |
|---|---|---|
| `Memory.ToWordSize` | evm/common.go:51-57 | the fewest 32-byte words covering a size, for every 64-bit size |
| `Memory.CalcMemSizeUint` | evm/common.go:21-34 | the end of a range, zero for an empty one; overflow exactly when the true end leaves 64 bits |
| `Memory.CalcMemSize` | evm/common.go:11-16 | the same for a 256-bit length |
| `Memory.GetData` | evm/common.go:38-48 | exactly the requested bytes, zero past the end of the data; no slice exactly when the unchecked end wraps around |
| `Memory.MemFeeFormula` | evm/gas_table.go:12-39 | the fee for w words is 3w + w*w/512, as Appendix H of the Yellow Paper has it |
| `Memory.MemFeeMonotone` | evm/gas_table.go:27-35 | more memory never costs less, so the unchecked difference of totals is not negative |
| `Memory.TotalFee` | evm/gas_table.go:28-31 | below the size limit no part of the 64-bit computation of the fee wraps |
| `Memory.Memory.constructor` | evm/memory.go:15-17 | a new memory is empty and nothing has been paid |
| `Memory.Memory.GasCost` | evm/gas_table.go:12-39 | fails exactly above the size limit; otherwise charges the difference of the totals and records the new one; the fees asked for add up |
| `Memory.Memory.Resize` | evm/memory.go:47-51 | never shrinks, keeps the old bytes, zeroes the new, and ends in whole words that are paid for |
| `Memory.Memory.Set` | evm/memory.go:20-31 | writes exactly the range given and keeps every other byte |
| `Memory.Memory.Set32` | evm/memory.go:35-44 | one big-endian word, all else unchanged |
| `Memory.Memory.Read` | evm/memory.go:54-80 | exactly the bytes of the range |
| `Memory.FeesTelescope` | evm/gas_table.go:12-39 | over any sequence of expansions the fees add up to the price of the final size |
| `Memory.WordsAfterIsMaximum` | evm/memory.go:47-51 | the final size is the largest request, in whatever order they come |
| `CodeAnalysis.SetN` | evm/analysis.go:17-27 | sets exactly n bits and, assigning the second byte outright, loses none |
| `CodeAnalysis.Set8` | evm/analysis.go:29-33 | sets exactly eight bits across a byte border |
| `CodeAnalysis.Set16` | evm/analysis.go:35-40 | sets exactly sixteen bits across two byte borders |
| `CodeAnalysis.MarkPush` | evm/analysis.go:66-100 | marks exactly the operand bytes of a PUSH, sixteen and eight at a time, within the array |
| `CodeAnalysis.SignedTest` | evm/analysis.go:61-65 | the comparison of signed bytes recognises exactly the PUSH opcodes |
| `CodeAnalysis.InstructionOrData` | evm/analysis.go:59-102 | every byte of the code is the start of an instruction or push data, never both |
| `CodeAnalysis.NextInstruction` | evm/analysis.go:59-102 | from an instruction the scan goes on to the next one |
| `CodeAnalysis.ScanStep` | evm/analysis.go:60-100 | one turn of the scan extends the marked prefix by exactly the push data of one instruction |
| `CodeAnalysis.CodeBitmap` | evm/analysis.go:48-102 | the bitmap marks exactly the push data of a linear scan, in bounds even when a PUSH32 is the last byte |
| `CodeAnalysis.SegmentIsInstruction` | evm/analysis.go:43-45 | read through the bitmap, a position is code exactly when an instruction starts there |
| `Contracts.Contract.constructor` | evm/contract.go:49-66 | a frame with its code, gas and the analyses it shares with its caller |
| `Contracts.Contract.IsCode` | evm/contract.go:84-113 | through either cache the answer is that of the plain scan, and both caches stay right |
| `Contracts.Contract.ValidJumpdest` | evm/contract.go:68-80 | accepts exactly the JUMPDEST bytes on instruction boundaries |
| `Contracts.Contract.UseGas` | evm/contract.go:145-151 | takes the gas if it is there and nothing otherwise |
| `Stacks.Stack.Swap` | evm/stack.go:51-53 | the top and the n-th item exchanged, all others in place |
| `JumpTables.FrontierOp` | evm/jump_table.go:217-1029 | every entry asks for the stack items its code and its gas function use, keeps the stack within 1024, and prices the memory its code touches |
| `JumpTables.HomesteadOp` | evm/jump_table.go:202-213 | the same for Homestead |
| `JumpTables.TangerineWhistleOp` | evm/jump_table.go:188-198 | the same after EIP-150 |
| `JumpTables.SpuriousDragonOp` | evm/jump_table.go:180-185 | the same after EIP-158 |
| `JumpTables.ByzantiumOp` | evm/jump_table.go:145-177 | the same for Byzantium |
| `JumpTables.ConstantinopleOp` | evm/jump_table.go:106-141 | the same for Constantinople, after which no opcode an EIP rewrites is undefined |
| `JumpTables.IstanbulOp` | evm/jump_table.go:94-102 | the same for Istanbul |
| `JumpTables.BerlinOp` | evm/jump_table.go:86-90 | the same for Berlin |
| `JumpTables.LondonOp` | evm/jump_table.go:77-82 | the same for London |
| `JumpTables.MergeOp` | evm/jump_table.go:64-73 | the same for the merge |
| `JumpTables.ForkOp` | evm/jump_table.go:30-41 | every table the program starts with is sound |
| `JumpTables.EnableOk` | evm/eips.go:50-171 | activating any EIP but 2929 keeps an entry sound |
| `JumpTables.Enable2929Ok` | evm/eips.go:98-132 | activating EIP-2929 keeps an entry sound exactly when the opcode is defined |
| `JumpTables.TableOkIff` | evm/interpreter.go:50-80 | an interpreter's table can be run on exactly when its fork is London or later or nobody has activated EIP-2929 on that fork |
| `GasTable.CallGasIsMinimum` | evm/gas.go:21-37 | a call gets its request up to all but one 64th of what is left, once the base cost is covered |
| `GasTable.WrappedCallIsRefused` | evm/gas.go:21-37 | when the unchecked subtraction wraps, the sum charged exceeds the gas there is |
| `GasTable.ColdSumFits` | evm/operations_acl.go:143-175 | under EIP-150 the unchecked addition of the cold cost never wraps |
| `GasTable.WrapperSoundIffEip150` | evm/operations_acl.go:143-175 | the wrapper prices every call soundly exactly when EIP-150 is on |
| `GasTable.PriceCall` | evm/gas_table.go:292-378 | on success the sum is exact, leaves room for the cold cost, and the share obeys the 63/64 rule |
| `GasTable.StoreGasSound` | evm/operations_acl.go:10-79 | a charged write costs at least the no-op price, changes no state, and leaves the counter covering the slots as they will be |
| `GasTable.StorePanicsIff` | evm/operations_acl.go:24-34 | a write panics exactly when access lists are on and neither slot nor address is in one |
| `GasTable.SLoadGas` | evm/operations_acl.go:86-97 | warm and cold price, and the slot is in the list afterwards |
| `GasTable.AccountGas` | evm/operations_acl.go:131-141 | the cold surcharge exactly once per address |
| `GasTable.ExponentBytes` | evm/gas_table.go:266-290 | an exponent has at most 32 bytes, so its price cannot overflow |
| `StorageGas.ClearingRefundFollowsSlot` | evm/gas_table.go:107-118 | the clearing refund is taken back exactly when a cleared slot stops being cleared |
| `StorageGas.NetCostTelescopes` | evm/gas_table.go:79-182 | over any writes to a slot, gas minus refunds is the no-op price per write plus a potential of the two end points, for all four price lists |
| `StorageGas.ColdNetCostTelescopes` | evm/operations_acl.go:10-79 | the same law plus exactly one cold charge |
| `StorageGas.RoundTripCostsNoops` | evm/gas_table.go:142-182 | writes that end where they began cost the no-op price each, no more and no less |
| `StateDB.TransferFollows` | blockchain/evm.go:105-113 | a transfer the sender can pay for neither creates nor destroys ether |
| `StateDB.SelfDestructFollows` | evm/instructions.go:809-822 | self-destruction never creates ether, even towards itself |
| `StateDB.EndowFollows` | evm/evm.go:409-411 | a new account endowed by its creator keeps ether and coverage |
| `StateDB.CreateAccountCovers` | evm/evm.go:161-176 | a re-created account holds no cleared slot, so the counter covers the rest |
| `StateDB.StoreCleared` | evm/instructions.go:507-516 | a write changes the number of cleared slots only through its own slot |
| `StateDB.StoreCovers` | evm/gas_table.go:107-118 | what a write takes from the refund counter is always there, over any number of slots |
| `StateDB.FinaliseEther` | blockchain/state_processor.go:90-91 | deleting destroyed accounts never creates ether |
| `StateDB.FinaliseCovers` | blockchain/state_processor.go:90-91 | the next transaction starts with nothing cleared |
| `Instructions.MemSizeReaches` | evm/memory_table.go:3-97 | memory of the size the table function computes holds everything the instruction touches |
| `Instructions.OpMload` | evm/instructions.go:479-484 | the word at the offset replaces it on the stack |
| `Instructions.OpMstore` | evm/instructions.go:486-491 | the word is stored at the offset, all else unchanged |
| `Instructions.OpMstore8` | evm/instructions.go:493-497 | the low byte is stored at the offset, all else unchanged |
| `Instructions.CopyToMemory` | evm/instructions.go:282-298 | the copy instructions: zero-padded data in the target range, all else unchanged |
| `Instructions.OpReturn` | evm/instructions.go:786-799 | exactly the memory range named on the stack |
| `Instructions.OpPush` | evm/instructions.go:855-891 | the operand bytes, zero-padded past the end of the code |
| `Instructions.OpJump` | evm/instructions.go:518-528 | goes on exactly to a jump destination, position zero included, and refuses exactly what is none |
| `Instructions.OpJumpi` | evm/instructions.go:530-542 | the same when the condition holds, and falls through otherwise |
| `Instructions.FetchFallsThrough` | evm/interpreter.go:153-216 | from a fetched instruction, falling through leads to the next one or just past the code |
| `Instructions.ExecuteLocal` | evm/instructions.go:219-561 | exactly the effect each instruction should have on stack, memory and program counter; afterwards the counter is at an instruction again |
| `Machine.MemoryGas` | evm/gas_table.go:48-264 | memory expansion plus the exact price of the data, with every sum checked |
| `Machine.ExpGas` | evm/gas_table.go:266-290 | the exact price per byte of the exponent |
| `Machine.OpReturnDataCopy` | evm/instructions.go:305-325 | fails exactly when the range leaves the return data, and otherwise copies exactly that range |
| `Machine.EVM.constructor` | evm/evm.go:110-121 | a machine at rest |
| `Machine.EVM.PlainCallGas` | evm/gas_table.go:292-378 | the gas there is covers the call exactly when it covers base cost and share, and then the share is what the 63/64 rule gives |
| `Machine.EVM.CallGasCost` | evm/operations_acl.go:143-175 | the same with the cold cost, charged once; the 63/64 rule sees the rest, and the gas is handed back for one common charge |
| `Machine.EVM.StateGas` | evm/operations_acl.go:10-141 | the exact price of writes, reads and self-destruction; a panic exactly for want of slot and contract in the access list |
| `Machine.EVM.ExtCodeCopyGas` | evm/operations_acl.go:104-122 | the exact price of copy, memory and access |
| `Machine.EVM.DynamicGas` | evm/interpreter.go:190-197 | for every gas function: affordable exactly when there is a price and the gas covers it, and then the exact price, in unbounded numbers |
| `Machine.EVM.OpSstore` | evm/instructions.go:507-516 | refused exactly under write protection, otherwise exactly one slot changes and coverage holds again |
| `Machine.EVM.OpLog` | evm/instructions.go:827-852 | refused exactly under write protection, otherwise exactly the log with the topics on the stack and the range of memory |
| `Machine.EVM.OpSelfdestruct` | evm/instructions.go:809-822 | refused exactly under write protection, otherwise the whole balance goes to the heir and no ether is created |
| `Machine.EVM.RunPrecompiled` | evm/contracts.go:116-124 | a precompile returns what it did not need, or nothing |
| `Machine.EVM.Enter` | evm/evm.go:196-213 | a frame hands back no more gas than it got, and a successful one moved the world only as it may |
| `Machine.EVM.Finish` | evm/evm.go:214-224 | on any error the snapshot comes back, and all gas goes unless the callee reverted |
| `Machine.EVM.Call` | evm/evm.go:150-228 | on any error the world, refund counter and access list included, is what it was; leftover never exceeds supplied; no ether is created; refusals exactly for depth and balance; to an account without code exactly the transfer happens and no gas goes |
| `Machine.EVM.CallCode` | evm/evm.go:237-278 | the same for CALLCODE, which moves nothing |
| `Machine.EVM.DelegateCall` | evm/evm.go:285-318 | the same for DELEGATECALL, which cannot lack balance |
| `Machine.EVM.StaticCall` | evm/evm.go:324-374 | the same, and balances, nonces, code, storage and logs are untouched whatever runs inside |
| `Machine.EVM.Create` | evm/evm.go:389-471 | unless the init code succeeded at most the creator's nonce has changed, but for the pre-Homestead exception; on success the code returned is deployed and within the rules; refusals exactly for depth, balance and nonce |
| `Machine.EVM.Deploy` | evm/evm.go:426-470 | run the init code, store what it returns, or go back to the snapshot |
| `Machine.EVM.Endow` | evm/evm.go:404-412 | nothing is created where there already is an account with nonce or code; a failure leaves the state as it was, but for the pre-Homestead exception |
| `Machine.EVM.StoreCode` | evm/evm.go:430-451 | the exact order of size limit, reserved byte and price of the code |
| `Machine.EVM.OpCreate` | evm/instructions.go:563-648 | pushes the address exactly when the contract counts as created and zero otherwise; refused exactly under write protection; the frame has less gas afterwards than the instruction began with |
| `Machine.EVM.OpCall` | evm/instructions.go:650-784 | pushes one exactly on success, writes exactly the returned bytes that fit, and restores the world otherwise; refused exactly for value under write protection; what the callee leaves does not make up for the cost, stipend included |
| `Machine.EVM.ExecuteRead` | evm/instructions.go:305-505 | reads leave the world alone and have exactly their effect; RETURNDATACOPY fails exactly past the data |
| `Machine.EVM.ExecuteWrite` | evm/instructions.go:507-852 | writes happen exactly when there is no write protection, and have exactly their effect |
| `Machine.EVM.Execute` | evm/interpreter.go:210-215 | an instruction that goes on has cost gas; all but calls and creations have exactly their effect on stack, memory, state and program counter |
| `Machine.EVM.MemoryFor` | evm/interpreter.go:179-189 | the extent in whole words, and overflow exactly when that leaves 64 bits |
| `Machine.EVM.Charge` | evm/interpreter.go:160-205 | each of the possible verdicts exactly when it should come; on success exactly constant gas and price are gone, memory has exactly the length asked for, and refund counter and call gas are ready |
| `Machine.EVM.Step` | evm/interpreter.go:153-216 | a turn that goes on costs gas and keeps stack limit, paid memory, instruction boundary and refund coverage |
| `Machine.EVM.Run` | evm/interpreter.go:88-223 | every nested execution terminates with gas as the measure, leaves no more gas than it got, restores depth and protection, keeps the refund counter covering every cleared slot, and, also when it reverts, has paid for memory exactly the price of its final size |
| `Machine.EVM.Loop` | evm/interpreter.go:153-220 | the loop of a frame: it ends, and every frame that ends well has kept to the rules and paid for its memory |
| `StateTransition.GasPool.SubGas` | blockchain/gaspool.go:23-29 | takes the gas exactly if it is there |
| `StateTransition.AsMessage` | blockchain/model/transaction.go:594-614 | the price never exceeds the fee cap |
| `StateTransition.OverflowTest` | blockchain/state_transition.go:118-129 | the division test finds exactly the overflows |
| `StateTransition.IntrinsicGas` | blockchain/state_transition.go:101-137 | the exact price of the data, refused exactly when it leaves 64 bits; the unchecked access-list part wraps |
| `StateTransition.TipNegativeIff` | blockchain/state_transition.go:221-243 | after the fee rules the tip is negative exactly when they were skipped under a base fee |
| `StateTransition.BaseFeeIsBurnt` | blockchain/state_transition.go:324-328 | what the sender pays beyond the tip is exactly the base fee |
| `StateTransition.Refund` | blockchain/state_transition.go:337-342 | the most that neither the counter nor the share of the gas used forbids |
| `StateTransition.StateTransition.BuyGas` | blockchain/state_transition.go:175-197 | refused exactly when balance or pool do not suffice for fee cap, value and gas; takes exactly the price, from sender and pool |
| `StateTransition.StateTransition.PreCheck` | blockchain/state_transition.go:199-245 | a message is accepted exactly when its nonce is next, its sender has no code, its fees are in order and balance and pool suffice; a refusal changes nothing |
| `StateTransition.StateTransition.Execute` | blockchain/state_transition.go:290-315 | reached exactly when the intrinsic gas is covered; the run moves the world only as it may and never adds gas; a crash is explained; to an account without code exactly nonce, value and intrinsic gas move |
| `StateTransition.StateTransition.RefundGas` | blockchain/state_transition.go:337-354 | sender and pool get back exactly the gas left with the refund; the pool cannot overflow |
| `StateTransition.StateTransition.PayOut` | blockchain/state_transition.go:317-328 | the sender is refunded and the coinbase paid or debited to the unit, for exactly the gas spent less the capped refund |
| `StateTransition.StateTransition.BuyAndRun` | blockchain/state_transition.go:260-315 | checks, purchase and run together; never fails for want of value once the gas is bought; a plain transfer never crashes |
| `StateTransition.StateTransition.TransitionDb` | blockchain/state_transition.go:260-335 | accepted exactly when rules, funds, pool and intrinsic gas allow; the pool loses exactly the gas used, the sender pays it at the price, the coinbase gets it at the tip, no ether is created; the coinbase ends below zero exactly in the case DebitIff describes; a crash is explained and never comes from a plain transfer, whose gas used is known |
| `StateTransition.StateTransition.Settle` | blockchain/state_transition.go:316-335 | what sender and coinbase are paid to the unit, what leaves the state at least, and exactly when the coinbase would end below zero |
| `StateProcessor.Burns` | blockchain/state_transition.go:324-328 | a settled transaction burns the base fee on the gas it used |
| `StateTransition.Conserved` | blockchain/state_transition.go:317-328 | ether after a transition is at most ether before minus what the price exceeds the tip by, for tips of either sign |
| `StateProcessor.PriceSplits` | blockchain/state_transition.go:324-328 | the price splits into tip and base fee |
| `StateProcessor.TotalledStep` | blockchain/state_processor.go:92-96 | each receipt carries the running total |
| `StateProcessor.Process` | blockchain/state_processor.go:41-77 | pool plus gas used is the block limit, receipts carry the running totals, and ether shrinks by at least the base fee on all gas |
| `StateProcessor.ApplyTransaction` | blockchain/state_processor.go:79-117 | one transition, after which the state is finalised |
| `Chain.AncestorComposes` | blockchain/headerchain.go:441-453 | walking up parents in two stretches is walking up once, gaps included |
| `Chain.AncestorSurvives` | blockchain/headerchain.go:441-453 | a walk that succeeded finds the same block when more are stored |
| `Chain.CanonicalAncestor` | blockchain/headerchain.go:389-421 | on the canonical path the k-th parent is the entry k below |
| `Chain.CanonicalIsUnique` | blockchain/headerchain.go:122-186 | a head has only one canonical map |
| `HeaderChain.HeaderChain.DeleteAbove` | blockchain/headerchain.go:137-144 | exactly the canonical numbers above the new head are marked |
| `HeaderChain.HeaderChain.WalkBack` | blockchain/headerchain.go:145-163 | the walk terminates, fails exactly at a gap, and otherwise writes exactly the path down to the cross link |
| `HeaderChain.HeaderChain.Extend` | blockchain/headerchain.go:165-176 | each new header under its number |
| `HeaderChain.HeaderChain.Rewrite` | blockchain/headerchain.go:136-176 | the batch, once applied, is the ancestor path of the last header |
| `HeaderChain.HeaderChain.Reorg` | blockchain/headerchain.go:122-186 | the canonical map becomes exactly the ancestor path of the last header, with nothing above it; on a missing parent nothing changes |
| `HeaderChain.HeaderChain.GetAncestor` | blockchain/headerchain.go:389-421 | returns nothing or exactly the k-th parent, and something exactly when the budget reaches it or the canonical chain; what it does with the zero hash instead, exactly |
| `HeaderChain.HeaderChain.WalkUp` | blockchain/headerchain.go:400-421 | the walk finds the ancestor exactly when it or a canonical block is within the budget |
| `HeaderChain.HashLookup.constructor` | blockchain/evm.go:65-69 | an empty cache is right for every database |
| `HeaderChain.HashLookup.Query` | blockchain/evm.go:70-100 | whatever was asked before, the answer of an uncached parent walk |
| `HeaderChain.CacheSurvives` | blockchain/evm.go:65-101 | blocks that arrive between queries leave the cache right |
| `BlockChain.BlockChain.FindFork` | blockchain/blockchain.go:1948-2017 | the common ancestor and both sides, or failure exactly at a gap on the new side |
| `BlockChain.BlockChain.Overwrite` | blockchain/blockchain.go:2042-2052 | the new chain but its head, oldest first |
| `BlockChain.BlockChain.Prune` | blockchain/blockchain.go:2054-2077 | deletes exactly what is only the old chain's, from index and canonical map |
| `BlockChain.BlockChain.StaleAbove` | blockchain/blockchain.go:2064-2074 | exactly the canonical numbers above the new end |
| `BlockChain.BlockChain.Reorg` | blockchain/blockchain.go:1948-2103 | leaves the path and index of the head's parent, or of the head if it was canonical; on failure nothing changes |
| `BlockChain.BlockChain.WriteKnownBlock` | blockchain/blockchain.go:1185-1194 | for longer, shorter, equal and ancestor targets: canonical map and index exactly those of the block |
| `BlockChain.IndexGrows` | blockchain/blockchain.go:761-769 | indexing a block keeps older entries right |
| `BlockChain.HeadWritten` | blockchain/blockchain.go:2136-2143 | a block written on its parent's chain, or again on its own |
| `BlockChain.Leaves` | blockchain/blockchain.go:2057-2059 | a deleted block's transaction is on no block that stays |
| `ChainIndexer.ChainIndexer.constructor` | blockchain/chain_indexer.go:86-105 | an index with nothing stored |
| `ChainIndexer.ChainIndexer.AddCheckpoint` | blockchain/chain_indexer.go:113-126 | ignored when it is not ahead, otherwise everything up to it counts as stored |
| `ChainIndexer.ChainIndexer.NewHead` | blockchain/chain_indexer.go:226-283 | after a reorg exactly the whole sections stay known, and stored above the checkpoint, and children are told no more; after a new head exactly the confirmed ones are known in addition, once checkpoint and chain agree |
| `ChainIndexer.ChainIndexer.Begin` | blockchain/chain_indexer.go:302-320 | after rolling back to a canonical head, the section and the head before it are remembered |
| `ChainIndexer.ChainIndexer.ResetFails` | blockchain/chain_indexer.go:375-378 | a backend that cannot start drops the index |
| `ChainIndexer.ChainIndexer.ReadNext` | blockchain/chain_indexer.go:380-395 | fails exactly at a gap, a missing header, a broken link or a backend error; otherwise the link is one longer |
| `ChainIndexer.ChainIndexer.Finish` | blockchain/chain_indexer.go:331-352 | a section is stored exactly when it was processed to its end and nothing was rolled back meanwhile |
| `ChainIndexer.ChainIndexer.VerifyLastHead` | blockchain/chain_indexer.go:406-413 | rolls back exactly to the last canonical head; that one check vouches for every section below |
| `ChainIndexer.ChainIndexer.Sections` | blockchain/chain_indexer.go:418-424 | clients see sections of the canonical chain only |
| `ChainIndexer.ChainIndexer.SetValidSections` | blockchain/chain_indexer.go:463-475 | drops exactly the heads from the new count on |
| `ChainIndexer.ChainIndexer.MoveChain` | blockchain/chain_indexer.go:371-401 | the links survive any change of the canonical map and any new block |
| `ChainIndexer.ChainIndexer.Run` | blockchain/chain_indexer.go:287-365 | in every interleaving of notifications, chain changes, queries and background work the stored heads stay linked at exact section distance |
| `ChainIndexer.LastVouchesForAll` | blockchain/chain_indexer.go:406-413 | if the last stored head is canonical, all are |
| `ChainIndexer.Stores` | blockchain/chain_indexer.go:334-336 | the head of a section processed to its end is one section of parents above the head before |
| `ChainIndexer.Complete` | blockchain/chain_indexer.go:231-262 | sections counted by division are exactly the complete ones |
| `Feed.Find` | event/feed.go:197-204 | the first position of a channel, or none |
| `Feed.Delete` | event/feed.go:207-209 | in place, exactly that case leaves and the order stays |
| `Feed.Deactivate` | event/feed.go:212-216 | exactly two cases change places |
| `Feed.Append` | event/feed.go:118-121 | extends in place when there is room, otherwise in a new array |
| `Feed.Deactivated` | event/feed.go:212-216 | one case moves from the undelivered to the delivered part and no other is disturbed |
| `Feed.Deleted` | event/feed.go:207-209 | one case leaves the part it was in and the other part is untouched |
| `Feed.AmongCases` | event/feed.go:87-98 | a subscription that is not in the inbox is among the cases |
| `Feed.LeavesCases` | event/feed.go:100-107 | a leaving subscription is always found, so the deletion never gets index -1 |
| `Feed.Feed.constructor` | event/feed.go:44-49 | a feed with its removal channel only |
| `Feed.Feed.Subscribe` | event/feed.go:56-76 | one more live subscription, in the inbox |
| `Feed.Feed.BeginRemove` | event/feed.go:87-98 | gone at once from the inbox, or certain to be among the cases |
| `Feed.Feed.FinishRemove` | event/feed.go:100-107 | removed under the send lock |
| `Feed.Feed.Absorb` | event/feed.go:118-121 | the inbox joins the cases |
| `Feed.Feed.Hand` | event/feed.go:144-148 | a delivery counted, and its case deactivated |
| `Feed.Feed.TrySendAll` | event/feed.go:143-149 | the fast path, for every choice of channels that accept |
| `Feed.Feed.Select` | event/feed.go:154-165 | one delivery or one removal, so every round makes progress |
| `Feed.Feed.Send` | event/feed.go:112-174 | everybody who stays gets the value exactly once, the count is that of the deliveries, and nobody unrelated is lost |
| `TxLists.TxSortedMap.constructor` | blockchain/tx_list.go:44-49 | an empty map |
| `TxLists.TxSortedMap.Put` | blockchain/tx_list.go:58-64 | one entry of the map, heap in step |
| `TxLists.TxSortedMap.Forward` | blockchain/tx_list.go:69-83 | everything below the threshold goes, in order, and a cached order loses exactly its front |
| `TxLists.TxSortedMap.Filter` | blockchain/tx_list.go:90-124 | exactly what the test picks goes |
| `TxLists.TxSortedMap.Reheap` | blockchain/tx_list.go:99-106 | the heap indexes exactly the stored nonces again |
| `TxLists.TxSortedMap.Cap` | blockchain/tx_list.go:128-149 | the lowest nonces stay, as many as allowed, and a cached order loses exactly its back |
| `TxLists.KeepLowest` | blockchain/tx_list.go:136-142 | the heap indexes exactly the contents left |
| `TxLists.TxSortedMap.Remove` | blockchain/tx_list.go:153-170 | one entry, if it is there |
| `TxLists.TxSortedMap.Ready` | blockchain/tx_list.go:179-194 | the unbroken run from the lowest nonce, as long as possible, exactly if it may start |
| `TxLists.TxSortedMap.Flatten` | blockchain/tx_list.go:201-222 | the contents in ascending order, cached or not |
| `TxLists.TxSortedMap.LastElement` | blockchain/tx_list.go:226-229 | the highest nonce |
| `TxLists.FlatIsUnique` | blockchain/tx_list.go:201-211 | there is only one sorted form |
| `TxLists.CacheFront` | blockchain/tx_list.go:78-81 | what Forward takes is exactly the front of the cache |
| `TxLists.CacheBack` | blockchain/tx_list.go:144-147 | what Cap takes is exactly the back of the cache |
| `TxLists.TxList.constructor` | blockchain/tx_list.go:245-251 | an empty list with zero caps |
| `TxLists.TxList.Add` | blockchain/tx_list.go:264-297 | accepted exactly on a free nonce or when it outbids by the bump; the caps still bound everything |
| `TxLists.TxList.Forward` | blockchain/tx_list.go:302-304 | as for the map |
| `TxLists.TxList.Filter` | blockchain/tx_list.go:315-344 | with or without the short circuit, the outcome of a full scan; in strict mode exactly what something unpayable stands in front of goes too |
| `TxLists.TxList.Cap` | blockchain/tx_list.go:348-350 | as for the map |
| `TxLists.TxList.Remove` | blockchain/tx_list.go:355-366 | one transaction, and in strict mode everything after it |
| `TxLists.TxList.Ready` | blockchain/tx_list.go:375-377 | as for the map |
| `TxLists.Invalidated` | blockchain/tx_list.go:331-341 | what comes after the lowest removed nonce is exactly what something unpayable stands in front of |
| `TxPricedLists.LessIsTransitive` | blockchain/tx_list.go:414-438 | the price order is one |
| `TxPricedLists.FirstIsWorst` | blockchain/tx_list.go:414-438 | nothing in a heap is worse than its first |
| `TxPricedLists.TxPricedList.Put` | blockchain/tx_list.go:491-497 | a remote transaction is tracked, a local one is not |
| `TxPricedLists.TxPricedList.Removed` | blockchain/tx_list.go:502-510 | nothing live is lost, rebuilt or not |
| `TxPricedLists.TxPricedList.Underpriced` | blockchain/tx_list.go:514-542 | exactly when the transaction beats no live one in any heap that has one; live entries stay tracked |
| `TxPricedLists.TxPricedList.Discard` | blockchain/tx_list.go:548-584 | terminates and never pops an empty heap; drops live remotes only, none dearer than anything left in the floating heap; frees the wanted slots or, unless forced, puts all back; whatever live one it does not drop stays tracked |
| `TxPricedLists.TxPricedList.Reheap` | blockchain/tx_list.go:587-611 | each live remote tracked exactly once, the worst fifth in the floating heap |
| `TxPricedLists.TxPricedList.SetBaseFee` | blockchain/tx_list.go:615-618 | every live remote tracked under the new order |
| `TxLookups.TxLookup.Add` | blockchain/tx_pool.go:1736-1748 | slots stay the sum over all transactions |
| `TxLookups.TxLookup.Remove` | blockchain/tx_pool.go:1751-1768 | the same, and an unknown one changes nothing |
| `TxLookups.TxLookup.RemoteToLocals` | blockchain/tx_pool.go:1772-1785 | nothing is lost; exactly the remotes of local accounts migrate |
| `TxLookups.TxNoncer.Get` | blockchain/tx_noncer.go:29-39 | a look changes no answer |
| `TxLookups.TxNoncer.Set` | blockchain/tx_noncer.go:43-48 | one virtual nonce |
| `TxLookups.TxNoncer.SetIfLower` | blockchain/tx_noncer.go:52-63 | the minimum, falling back on the state |
| `TxLookups.TxNoncer.SetAll` | blockchain/tx_noncer.go:66-71 | exactly these, and the state for all others |
| `TxPools.TxPool.constructor` | blockchain/tx_pool.go:262-291 | an empty pool |
| `TxPools.TxPool.EnqueueTx` | blockchain/tx_pool.go:737-772 | queued exactly on a free nonce or when it outbids; one that is being moved onto a free nonce is never refused |
| `TxPools.TxPool.PromoteTx` | blockchain/tx_pool.go:790-820 | pending exactly on a free nonce or when it outbids, with the virtual nonce moved past it |
| `TxPools.TxPool.Requeue` | blockchain/tx_pool.go:993-997 | every invalidated transaction gets back into the queue |
| `TxPools.TxPool.RemoveTx` | blockchain/tx_pool.go:970-1016 | exactly this transaction goes; after a pending one the rest is queued and the virtual nonce lowered; a queued one touches nothing pending |
| `TxPools.TxPool.Add` | blockchain/tx_pool.go:634-732 | exactly what the lists and the local accounts become once there is room; who is lost: the one replaced, and in a full pool only remotes; a refusal changes no list; intervals are kept |
| `TxPools.TxPool.Place` | blockchain/tx_pool.go:690-732 | a new transaction replaces a pending or queued one exactly by outbidding it, and otherwise waits in the queue |
| `TxPools.TxPool.ReplacePending` | blockchain/tx_pool.go:689-713 | replaced exactly when outbid, in list, lookup and heaps alike |
| `TxPools.TxPool.AddToQueue` | blockchain/tx_pool.go:714-732 | queued exactly on a free nonce or when it outbids, and nothing else in the queue changes; a local submission makes the account local |
| `TxPools.TxPool.Adopt` | blockchain/tx_pool.go:719-724 | no remote transaction of a local account is left |
| `TxPools.TxPool.MakeRoom` | blockchain/tx_pool.go:652-688 | evicts remotes only; a refusal changes no list |
| `TxPools.TxPool.PickVictims` | blockchain/tx_pool.go:654-681 | live remotes to evict, none dearer than anything left in the floating heap, or none |
| `TxPools.TxPool.Evict` | blockchain/tx_pool.go:682-687 | exactly these go |
| `TxPools.TxPool.PromoteAccount` | blockchain/tx_pool.go:1294-1348 | exactly what is promoted, what stays queued and what goes; intervals are kept and no executable transaction is left behind |
| `TxPools.TxPool.PromoteRun` | blockchain/tx_pool.go:1315-1322 | the whole run becomes pending, on free nonces |
| `TxPools.TxPool.PromoteExecutables` | blockchain/tx_pool.go:1289-1350 | every pending list gains exactly the run its queue has to give; every listed queue is current and within its limit |
| `TxPools.PromotedStep` | blockchain/tx_pool.go:1294-1348 | promoting one more account keeps what holds of those before it |
| `TxPools.TxPool.DemoteAccount` | blockchain/tx_pool.go:1493-1541 | exactly what remains pending; only stale transactions are lost, all others are queued |
| `TxPools.TxPool.DemoteUnexecutables` | blockchain/tx_pool.go:1491-1542 | the same for every account |
| `TxPools.TxPool.DropTop` | blockchain/tx_pool.go:1390-1405 | the highest nonce goes, the virtual nonce follows, and the total drops by one |
| `TxPools.TxPool.LevelDown` | blockchain/tx_pool.go:1386-1407 | accounts of equal size are levelled to a threshold or until the total is small enough |
| `TxPools.TxPool.TruncatePending` | blockchain/tx_pool.go:1355-1437 | total within the limit or every remote account within its share; the counter is the true total; locals untouched, nobody below the share, no more than one round too many |
| `TxPools.OffenderJoins` | blockchain/tx_pool.go:1375-1408 | levelling to the size of the next offender keeps what truncation relies on |
| `TxPools.TxPool.TruncateQueue` | blockchain/tx_pool.go:1440-1482 | queued within the limit or local queues only; not one removed too many; pending, virtual nonces and local queues untouched |
| `TxPools.TxPool.RemoveQueued` | blockchain/tx_pool.go:1466-1473 | each removal hits the queue and not the pending list |
| `TxPools.TxPool.Reset` | blockchain/tx_pool.go:1199-1284 | new state and fresh virtual nonces; as long as there is room the lists are exactly what joining the reinjected transactions makes of them; in a full pool pending lists at most lose their highest nonces, and nothing comes in that was not offered |
| `TxPools.TxPool.UpdateNonces` | blockchain/tx_pool.go:1164-1170 | every virtual nonce is past the last pending one, so pending nonces are an interval where no nonce is missing |
| `TxPools.TxPool.RunReorg` | blockchain/tx_pool.go:1121-1195 | invariant and both limits at the end; every pending interval is kept unless the account's state nonce goes down, and then too if the reinjected transactions need no eviction and no gap opens in what they make of the lists |
| `TxPools.TxPool.Run` | blockchain/tx_pool.go:1051-1118 | in every run the lookup is exactly the disjoint union of the lists, slots are their sum and heaps cover the remotes; intervals are kept through any number of resets for accounts whose state nonce never goes down |
| `TxPools.CutsLoose` | blockchain/tx_pool.go:986-1003 | what is cut off a list is clear of both lists |
| `TxPools.Lands` | blockchain/tx_pool.go:790-815 | putting a transaction into a list keeps every known one in exactly one place |
| `TxPools.LandsInQueue` | blockchain/tx_pool.go:737-772 | the same for the queue, for new and moved transactions |
| `TxPools.RemovesPending` | blockchain/tx_pool.go:986-1003 | a known transaction whose nonce is pending is the pending one |
| `TxPools.RemovesQueued` | blockchain/tx_pool.go:1005-1015 | a known transaction whose nonce is not pending is queued |
| `TxPools.StartsAtNonce` | blockchain/tx_pool.go:1315-1316 | where pending nonces are an interval, a run that may start starts right behind it |
| `TxPools.IntervalLength` | blockchain/tx_pool.go:814-815 | the virtual nonce is the state nonce plus the number of pending transactions |
| `TxPools.CutContiguous` | blockchain/tx_noncer.go:52-63 | cutting at a nonce and lowering the virtual nonce keeps every interval |
| `Instructions.ExecuteSimple` | evm/instructions.go:219-561 | the instructions but jumps and pushes, each with exactly its effect and its way to end |
| `Machine.EVM.FrameGas` | evm/gas_table.go:48-290 | the exact price where neither state nor calls matter |
| `Machine.Decides` | evm/interpreter.go:190-205 | a right price leads to the right verdict |
| `Machine.EVM.ChargeDynamic` | evm/interpreter.go:172-205 | the verdict and charge after the constant gas |
| `Machine.EVM.PayDynamic` | evm/interpreter.go:190-205 | the verdict and charge once the size of the memory is known |
| `Machine.PopCall` | evm/instructions.go:650-784 | exactly the operands of the call kind, with the arguments read from memory |
| `Machine.EVM.CallAs` | evm/instructions.go:650-784 | whatever the kind: any error restores the world, leftover never exceeds supplied, and refusals return all gas; which kinds look at the balance, which leaves the state alone, and what each does where there is no code |
| `Machine.EVM.ExecuteOwn` | evm/interpreter.go:210-215 | instructions that leave the state alone have exactly their effect; what REVERT returns is kept for the caller |
| `StateTransition.StateTransition.RunMessage` | blockchain/state_transition.go:305-315 | a creation or a call, with no more gas after than before; a crash only after a creation, without entries from calls, or for a target in no access list |
| `StateTransition.StateTransition.SendMessage` | blockchain/state_transition.go:311-315 | a call after the nonce went up; to an account without code exactly nonce and value move |
| `ChainIndexer.ChainIndexer.Reorged` | blockchain/chain_indexer.go:231-258 | exactly what stays known, stored and cascaded after a reorg |
| `ChainIndexer.ChainIndexer.Confirmed` | blockchain/chain_indexer.go:259-282 | exactly what becomes known with a new head |
| `ChainIndexer.LinksSurvive` | blockchain/chain_indexer.go:380-395 | new blocks break no link between stored heads |
| `ChainIndexer.ProgressSurvives` | blockchain/chain_indexer.go:380-395 | nor in the section being processed |
| `Feed.Feed.TakeOut` | event/feed.go:155-157 | the leaving channel is found, past the removal channel, and exactly it goes |
| `Feed.Feed.Rounds` | event/feed.go:138-166 | terminates for every choice of the scheduler, with everybody served |
| `NonceHeaps.FirstIsSmallest` | blockchain/tx_list.go:17-33 | the first element of a heap is the lowest nonce |
| `TxLists.TxList.DropAfter` | blockchain/tx_list.go:331-341 | exactly what something unpayable stands in front of goes |
| `TxLists.NothingCostly` | blockchain/tx_list.go:316-319 | under the caps the full scan would find nothing, so the short circuit is right |
| `TxPricedLists.Clean` | blockchain/tx_list.go:525-534 | stale entries leave the top, live ones stay |
| `TxPricedLists.TopDecides` | blockchain/tx_list.go:535-541 | comparing with the top is comparing with every live entry |
| `TxPools.TxPool.DropPending` | blockchain/tx_pool.go:986-1003 | the transaction is the pending one, and the list is cut right below it |
| `TxPools.TxPool.DropQueued` | blockchain/tx_pool.go:1005-1015 | the transaction is the queued one, and only it leaves |
| `TxPools.TxPool.DropOld` | blockchain/tx_pool.go:1299-1304 | exactly what the state has passed goes |
| `TxPools.TxPool.DropUnpayable` | blockchain/tx_pool.go:1306-1311 | exactly what cannot be paid goes |
| `TxPools.TxPool.TakeReady` | blockchain/tx_pool.go:1315-1316 | the run behind the pending interval, as long as it is unbroken |
| `TxPools.RunDone` | blockchain/tx_pool.go:1315-1321 | a whole run has become pending, and intervals of other accounts are untouched |
| `TxPools.TxPool.CapQueue` | blockchain/tx_pool.go:1326-1336 | the lowest nonces stay, as many as allowed |
| `TxPools.TxPool.Demote` | blockchain/tx_pool.go:1512-1518 | what leaves a pending list arrives in the queue, nonce by nonce |
| `TxPools.TxPool.FrontGap` | blockchain/tx_pool.go:1523-1536 | all of a list or none of it stays |
| `TxPools.TxPool.LevelOffenders` | blockchain/tx_pool.go:1375-1409 | offenders are level with each other after every round |
| `TxPools.TxPool.LevelRest` | blockchain/tx_pool.go:1411-1435 | down to the share or the limit, by at most one round more than needed |
| `TxPools.TxPool.CutLast` | blockchain/tx_pool.go:1474-1480 | exactly the highest nonces of a queue go, as many as asked |
| `TxPools.TxPool.ClearQueue` | blockchain/tx_pool.go:1465-1473 | a queue goes as a whole, and the counter with it |
| `TxPools.NextDecides` | blockchain/tx_pool.go:1164-1170 | with the virtual nonce set past the last transaction, interval and gaplessness are the same |
| `TxPools.ReplacesPending` | blockchain/tx_pool.go:691-705 | a replacement keeps every known transaction in exactly one list |
| `TxPools.Forgets` | blockchain/tx_pool.go:1299-1311 | what is taken off a list and out of the lookup leaves the rest in place |
| `JumpTables.SharedOk` | evm/interpreter.go:65-73 | whatever has been activated on a fork but EIP-2929, its entries stay sound; from London on, EIP-2929 included |
| `JumpTables.SharedBroken` | evm/eips.go:98-132 | before London, EIP-2929 breaks EXTCODEHASH for good, whatever is activated around it |
| `JumpTables.OthersBreakIt` | evm/interpreter.go:65-73 | the input: Homestead rules with EIP-2929, then Homestead rules with none |
| `JumpTables.InstructionSets.constructor` | evm/jump_table.go:30-41 | the package-level tables before any interpreter |
| `JumpTables.InstructionSets.EnableEip` | evm/eips.go:23-30 | an added opcode is the interpreter's own, a repriced one is repriced for the whole fork |
| `JumpTables.InstructionSets.NewInterpreter` | evm/interpreter.go:50-80 | what a new interpreter does to its fork's table, and whether its own can be run on, from what was activated before |
| `JumpTables.InstructionSets.Run` | evm/interpreter.go:50-80 | the same after any interpreters that come later |
| `StateTransition.DebitIff` | blockchain/state_transition.go:323-328 | the reward cannot be paid exactly when the fee rules were skipped and the coinbase has less than the base fee on the gas used |
| `StateTransition.DebtExample` | blockchain/state_transition.go:221-335 | a whole transition that passes every fee rule and puts the coinbase below zero |
| `StateTransition.RewardedEther` | blockchain/state_transition.go:323-328 | the coinbase and the state change by exactly the reward, negative or not |
| `HeaderChain.HeaderChain.constructor` | blockchain/headerchain.go:62-95 | a chain of the genesis header |
| `BlockChain.BlockChain.constructor` | blockchain/blockchain.go:691-719 | a chain of the genesis block |
| `TxPricedLists.TxPricedList.MoveOne` | blockchain/tx_list.go:551-560 | the worst urgent entry moves over; if it undercuts what was dropped it is the next to go |
| `TxPricedLists.NextInTurn` | blockchain/tx_list.go:561-574 | what is taken off the floating heap is no dearer than what is left, even after a late arrival |
| `TxPools.PromotesRun` | blockchain/tx_pool.go:1315-1322 | what Ready hands out is the unbroken run from the lowest nonce the state admits |
| `TxPools.TxPool.Rebuild` | blockchain/tx_pool.go:1142-1170 | promotion of all queues, demotion of all lists and the nonces after it, as one function of the lists before |
| `TxPools.TxPool.Resettle` | blockchain/tx_pool.go:1134-1170 | an account with a pending interval has one after a reset exactly unless its state nonce went down and a gap opens in the lists the reinjected transactions have joined: the new nonce is queued and payable, a nonce between it and the first pending one is not, and that one is payable; with room those lists are a function of the lists before |
| `TxPools.AfterReset` | blockchain/tx_pool.go:1289-1542 | the same for the lists of one account |
| `TxPools.GapExample` | blockchain/tx_pool.go:1289-1542 | the input: nonces 5 and 6 pending, 3 queued, and the state nonce put back to 3 |
| `TxPools.MendedExample` | blockchain/tx_pool.go:1199-1284 | the same lists with nonce 4 reinjected: a gap in the lists before, none after |
| `TxPools.ReinjectedExample` | blockchain/tx_pool.go:1199-1284 | nonces 5 and 6 pending and only 3 reinjected: no gap in the lists before, one after |
| `TxPools.GapAtReset` | blockchain/tx_pool.go:1134-1170 | a reset that turns this pending interval into a list with a gap |
| `TxPools.JoinedSlots` | blockchain/tx_pool.go:651-653 | joining takes no more slots than the transactions on offer have |
| `TxPools.FitTogether` | blockchain/tx_pool.go:651-653 | offers that fit the pool together need no eviction |
| `TxPools.InitialPart` | blockchain/tx_pool.go:970-1016 | removals leave of an interval an interval from the same start |
| `TxPools.TxPool.Take` | blockchain/tx_pool.go:1051-1118 | the same for every single event |

## Left out

- 256-bit arithmetic, comparison and environment instructions: only their stack effect and price are modelled, their values are left open.
- Signature recovery, hashing, address derivation and the bodies of precompiles: results are parameters or left open.
- RLP, rawdb, tries, snapshots and the freezer: databases are maps with atomic batches; I/O errors are not modelled.
- JumpTables.InstructionSets.NewInterpreter: unknown EIP numbers are not modelled, nor tables a caller supplies; pointers into the fork's table are represented by the fork they point to.
- Machine.EVM.Run: the table of a running machine does not change, so an interpreter created meanwhile on the same fork with repricing EIPs is not captured.
- Tracing, logging, metrics, timers and the transaction journal: no state the properties depend on.
- Machine.EVM.constructor: takes a table that can be run on; JumpTables.TableOkIff says which tables those are.
- StateProcessor.Process: stops before the engine's Finalize at the end of a block, which may pay rewards; the ether bound is for the transactions.
- HeaderChain.HeaderChain.GetAncestor: the header cache, which is asked by hash alone, is not modelled, so with a number that is not the block's own the source may answer where the model finds nothing; the same holds for Chain.Lookup wherever it is used.
- HeaderChain.HeaderChain.constructor: starts from the genesis header and not from a stored head.
- ChainIndexer.ChainIndexer.constructor: starts with nothing stored and not from a stored count of sections.
- StateTransition.StateTransition.TransitionDb: takes a message whose price is within its fee cap, as AsMessage makes it.
- StateTransition.StateTransition.Execute: the access list of a message is priced but not entered into the state, as in the source, which never prepares it.
- WriteHeaders, InsertHeaderChain, insertChain, insertSideChain and setHeadBeyondRoot: validation and storage around the reorganisation step.
- BlockChain.BlockChain.WriteKnownBlock: assumes that no transaction sits in two blocks of one chain; the lookup cache, logs and events are not modelled, and SetCanonical differs only by state recovery.
- ChainIndexer.ChainIndexer.AddCheckpoint: takes an indexer with no section in progress, as its callers do; children and Prune are not modelled.
- ChainIndexer.ChainIndexer.ResetFails: the rollback outside the lock is taken as one step.
- Feed.Feed.Send: the value itself, its type check and the clearing of sent values are not modelled, only who gets it and how often.
- The container/heap and sort libraries: used by what they promise; the model keeps sorted lists, which are heaps.
- TxPools: lists are represented by their contents, so sharing of list objects is not captured; the refinement of each list operation is proved in TxLists.
- TxPools.TxPool.Add: checks that do not depend on the pool (type, signature, intrinsic gas) come as one flag, and heartbeats, events and the journal are left out.
- TxPools.TxPool.MakeRoom: who is evicted is stated for PickVictims, before the removals touch the heaps again.
- TxPools.TxPool.Resettle: in a full pool the lists found after reinjection depend on the price heaps and are only bounded, not computed.
- TxPools.TxPool.RunReorg: nonces stay below 2^64 - 1; the computation of reinjected transactions from two chains is an input.
- TxPricedLists.TxPricedList.Discard: no strict capacity bound, since a stale entry can become live again and be counted twice.
- Fork choice, networking, RPC, light client and account management: outside the modelled parts.
