# Verified models of the qXRP repository's hard core

This project models, in Dafny, the parts of the qXRP repository whose correctness is
not visible from reading one function, and proves what they promise: the intrusive
reference-count protocol, the keyless BTC peg-out programs with their transactions and
addresses, the slab allocator, two long-running state machines (the dashboard's
transaction index and the EVM deposit relay), fixed-width and decimal arithmetic, and
the sequence, interval and graph algorithms.

`dafny verify dfyconfig.toml` checks every file.

| file | models |
|---|---|
| `RefCountWord.dfy`, `RefCountProtocol.dfy` | the packed word of `IntrusiveRefCounts` and its protocol over any number of threads |
| `Script.dfy`, `PegOut.dfy` | a Bitcoin Script interpreter; reserve and hold programs and their witnesses |
| `BtcTx.dfy`, `Bech32.dfy` | transaction serialization with a decoder; bech32 checksum and address encoding |
| `ChallengeEngine.dfy` | the challenger's honest COMPLETE and its decision to race |
| `Slab.dfy` | slab blocks, allocators and allocator sets over one byte memory |
| `TxIndex.dfy`, `DepositRelay.dfy`, `DepositRelaySafety.dfy`, `DepositRelayRecovery.dfy` | the ledger-transaction index; the deposit relay, what it promises, and which deposits it meets again |
| `BaseUint.dfy`, `WideArith.dfy`, `Numbers.dfy`, `Normalize.dfy` | limb arithmetic, mul-div, the decimal number and its normalization |
| `RangeSet.dfy`, `Algorithm.dfy`, `IncludeGraph.dfy` | interval sets, merge-style removal, the include graph |
| `Words.dfy` | bytes, fixed-width integers, shared arithmetic facts |

## How the model is set up

* SHA-256 is a parameter: any function with 32-byte results. Where a statement would need
  collision resistance, it says "or a collision" instead.
* Remote calls (RPC, `get_logs`, `mint_iou`) and writes of the relay's state file are oracles:
  arbitrary answers, or an exception.
* Integer widths are written out wherever they matter: 32-bit wrap-around of the
  reference-count word and of limbs, 64-bit overflow in `muldiv64`, wrap-around in
  `muldivU64`, `struct.pack` ranges, wrapping `t - 1` in `prevMissing`, the 64-bit guard
  word of `Number`.
* Exceptions are the `Err` case of `Result`, or a `raised` result of the relay's methods.
* Atomic accesses are steps of a transition system under sequential consistency.

## Where the code and its documentation part

Each of these is kept as the code has it, with a concrete input and the exact condition.

* `partialDestructorFinished` notifies after it has set the finished bit; a waiter that sees
  the bit first destroys the object before that last access (`AfterDestroyOnlyNotify`,
  `LateNotify`).
* `addWeakReleaseStrongRef` is documented as `addWeakRef` followed by `releaseStrongRef`;
  with one strong and no weak reference it leaves the object whole
  (`CombinedReleaseIsTheTwoSteps`).
* A transaction without inputs and with exactly one output has a plain form that reads as
  a witness form (`BtcTx.RoundTrip`).
* `removeIfIntersectOrMatch` removes one element per element of the second range, so
  surplus duplicates survive (`DocumentedExactly`, `DuplicateSurvives`).
* `to_string` of an empty set does not parse back, and `prevMissing` of an empty set
  finds nothing (`EmptyDoesNotParse`, `PrevMissingExactly`).
* When a node's first available ledger rises after counting began, the index's total
  covers ledgers below its own start (`TotalIsExact`, `StartRaisedLate`).
* A fetch that fails is counted as an empty ledger for ever (`TotalIsTrueExactly`,
  `FailedFetchIsCounted`).
* `--from-block` past block 1 opens a gap when the cursor stands at block 0, and a deposit in
  it is lost (`GapOpens`, `GapCoversExactly`, `GapLosesADeposit`).
* A mint whose save raises is minted again after a restart (`ForgottenIsReissued`,
  `RepeatedMint`).
* A deposit whose attempt from the log is reported failed is not queued, and once the cursor
  has passed it no run mints it (`PassedForEver`, `PassedHasFailed`, `FailedIsPassed`).
* COMPLETE is documented to pay the exact amount and return the change; the challenger skips
  any transaction that pays at least the amount and announces the burn. What is skipped takes
  exactly what is due if and only if it is the documented one (`SkippedTakesExactly`); an
  overpaying one and one with any third output are skipped too (`OverpaymentIsSkipped`,
  `ShapeIgnoresTheRest`), and the miner fee is not looked at (`ReserveLoss`).
* A slab set is documented to sort its allocators by size and to refuse two of one size; it
  compares the extra bytes. Extra bytes 1 and 2 on 8, aligned to 8, give size 16 twice
  (`SameSizeTwice`); 0 aligned to 64 and 8 aligned to 8 give 64 before 16 (`SizesDescend`).
  Under one alignment the sizes do ascend (`SizesAscend`).
* `operator<` ranks two negative numbers with the same exponent by magnitude, so -1
  comes before -2 and `lowest()` is not least (`LessIsNumeric`, `LowestIsNotLeast`).
* Normalization on the large scale turns magnitudes just above 2^63 - 1 units into
  9223372036854775800 units (`DoNormalize`, `LostExamples`).
* `muldiv64`'s comment bounds its products for divisors up to 10000 only; the exact bound
  is `SafeForEveryMultiplicand`. The two builds of `muldivU64` disagree exactly when the
  remainder's product wraps (`BuildsAgree`).

## Model

| member | source | states |
|---|---|---|
| RefCountWord.UnpackPack | include/xrpl/basics/IntrusiveRefCounts.h:412-446 | unpacking the combined value of any fields that fit gives the fields back |
| RefCountWord.PackUnpack | include/xrpl/basics/IntrusiveRefCounts.h:412-446 | combining the unpacked fields of any word gives the word back |
| RefCountWord.DeltasStayInTheirFields | include/xrpl/basics/IntrusiveRefCounts.h:140-224 | each add, subtract and tag step on the packed word changes only its own field, no carry or borrow crossing a boundary |
| RefCountWord.ReleaseStrongFields | include/xrpl/basics/IntrusiveRefCounts.h:240-285 | new fields and reported action of a strong release, by case on both counts |
| RefCountWord.AddWeakReleaseStrongFields | include/xrpl/basics/IntrusiveRefCounts.h:287-338 | new fields and reported action of the combined release, including one strong and no weak, where no bit is set |
| RefCountWord.CombinedReleaseIsTheTwoSteps | include/xrpl/basics/IntrusiveRefCounts.h:287-338 | on live words the combined release equals add-weak then release-strong if and only if the counts are not one and zero; what each gives there |
| RefCountProtocol.NextPreserves | include/xrpl/basics/IntrusiveRefCounts.h:227-382 | every atomic step of every thread keeps the invariant tying the word to the handles, the phases and every thread's local values |
| RefCountProtocol.FinishPreserves | include/xrpl/basics/IntrusiveRefCounts.h:448-468 | setting the finished bit keeps it too, its debug assertions included |
| RefCountProtocol.NotifyPreserves | include/xrpl/basics/IntrusiveRefCounts.h:458-464 | so does the notification, a step of its own |
| RefCountProtocol.Safety | include/xrpl/basics/IntrusiveRefCounts.h:227-382 | in every interleaving: at most one Destroy and one PartialDestroy, Destroy only without handles, after a started partial destructor has finished and with every thread out of all operations but for a pending notification, no strong handle after PartialDestroy, counts equal handles, no assertion fails |
| RefCountProtocol.AfterDestroyOnlyNotify | include/xrpl/basics/IntrusiveRefCounts.h:340-468 | after Destroy an access is enabled if and only if it is the finisher's notification, still to come because the last weak release came before the finished bit was set |
| RefCountProtocol.LateNotify | include/xrpl/basics/IntrusiveRefCounts.h:448-468 | a run that ends with Destroy issued and the notification still to come |
| RefCountProtocol.ExpiredStaysExpired | include/xrpl/basics/IntrusiveRefCounts.h:367-382 | once the last strong handle is gone no later checkout revives the object |
| RefCountProtocol.WaitsPassWithoutPartialDestroy | include/xrpl/basics/IntrusiveRefCounts.h:340-365 | without a partial destroy both waits compare against a value that differs from the word, the second one wrapped modulo 2^32, so neither blocks |
| RefCountProtocol.ParkedWaiterHasAWaker | include/xrpl/basics/IntrusiveRefCounts.h:340-365 | a parked waiter implies that the partial destructor is running or its notification is enabled, which sends the waiter to compare with a different value |
| RefCountProtocol.StepsRunOut | include/xrpl/basics/IntrusiveRefCounts.h:340-365 | without handles every non-spurious step lowers a bound on the steps left |
| RefCountProtocol.NeverStuck | include/xrpl/basics/IntrusiveRefCounts.h:340-365 | without handles and before Destroy some non-spurious step is enabled |
| RefCountProtocol.NoLeak | include/xrpl/basics/IntrusiveRefCounts.h:340-365 | every run without handles and spurious wake-ups is bounded, and ends in Destroy or can go on |
| Script.DelayIsCheckSequence | bin/install/bitvm-challenger/bitvm_shared_pegout.py:98-154 | for OP_1..OP_16 the interpreter's CSV check (BIP 112) is the stated condition on version and sequence bits (BIP 68) |
| Script.RunHashLock | bin/install/bitvm-challenger/bitvm_shared_pegout.py:98-154 | executing the hash-lock bytes at any position succeeds exactly on a preimage and leaves true in its place |
| PegOut.PreimageInjective | bin/install/bitvm-challenger/bitvm_shared_pegout.py:79-95 | commits with 20-byte accounts are determined by the bytes that are hashed |
| PegOut.BuildReserveProgram | bin/install/bitvm-challenger/bitvm_shared_pegout.py:98-154 | succeeds exactly for csv 1..16 and packable numbers, and builds the reserve program of the commit's digest |
| PegOut.ReserveProgramFor | bin/install/bitvm-challenger/bitvm_shared_pegout.py:98-154 | the 78 bytes have the delay, the two hash locks and the branches at their offsets |
| PegOut.ReserveAccepts | bin/install/bitvm-challenger/bitvm_shared_pegout.py:98-195 | the program's bytes accept a stack if and only if it is a preimage with a true selector and a met delay, or a fraud preimage with a false selector |
| PegOut.CompleteWitnessSpends | bin/install/bitvm-challenger/bitvm_shared_pegout.py:180-195 | the honest witness spends its own instance (BIP 141) if and only if the delay is met and the preimage fits a stack element |
| PegOut.CommitBinding | bin/install/bitvm-challenger/bitvm_shared_pegout.py:79-95 | another burn's witness opens an instance only if it is the same burn or exhibits a collision |
| PegOut.BuildSharedHoldProgram | bin/install/bitvm-challenger/shared_reserve.py:89-132 | succeeds exactly for a 32-byte setup id, csv 1..16 and a 32-byte fraud hash, and builds the hold program |
| PegOut.HoldProgram | bin/install/bitvm-challenger/shared_reserve.py:89-132 | the 78 bytes have the branches of the hold program, in the opposite order, at their offsets |
| PegOut.HoldAccepts | bin/install/bitvm-challenger/shared_reserve.py:89-147 | the hold program accepts exactly the mirrored witnesses: false selector completes after the delay, true selector needs a fraud preimage |
| PegOut.HoldCompleteWitnessSpends | bin/install/bitvm-challenger/shared_reserve.py:135-147 | the public preimage spends the hold output if and only if the delay is met |
| PegOut.CreatedInstanceSpends | bin/install/bitvm-challenger/bitvm_shared_pegout.py:202-217 | creation succeeds exactly for valid arguments, and the created script is opened by the honest witness under the stated condition |
| PegOut.CreatedReserveSpends | bin/install/bitvm-challenger/shared_reserve.py:150-180 | whatever setup id is given, the reserve has a 32-byte one and its public preimage opens its hold script exactly after the delay |
| BtcTx.Serialize | bin/install/bitvm-challenger/btc_tx.py:86-105 | the writing loops succeed exactly when every number that is written fits its field, and produce the specified bytes |
| BtcTx.TakeVarintInverts | bin/install/bitvm-challenger/btc_tx.py:23-30 | reading a varint in front of anything gives the number and the rest |
| BtcTx.TakeOutInverts | bin/install/bitvm-challenger/btc_tx.py:44-50 | reading back one output |
| BtcTx.TakeInInverts | bin/install/bitvm-challenger/btc_tx.py:53-68 | reading back one input, without its witness |
| BtcTx.WitnessFormDecodes | bin/install/bitvm-challenger/btc_tx.py:86-105 | the witness form (BIP 144) decodes to the transaction with absent witnesses read as empty |
| BtcTx.PlainFormDecodes | bin/install/bitvm-challenger/btc_tx.py:86-105 | the plain form decodes if and only if it is not the form without inputs and with one output |
| BtcTx.RoundTrip | bin/install/bitvm-challenger/btc_tx.py:44-113 | in either form decoding recovers what was written, exactly outside that one shape |
| BtcTx.UniquelyDecodable | bin/install/bitvm-challenger/btc_tx.py:44-113 | two transactions with inputs and equal encodings, in whichever forms, are read as the same transaction |
| BtcTx.TxidIgnoresWitness | bin/install/bitvm-challenger/btc_tx.py:107-110 | the bytes hashed for the txid are the same for transactions that differ in witnesses only |
| Bech32.Polymod | bin/install/bitvm-challenger/btc_tx.py:145-153 | the loop computes the fold of the register step |
| Bech32.AbsorbLinear | bin/install/bitvm-challenger/btc_tx.py:148-152 | one register step is linear over exclusive or |
| Bech32.FoldSplits | bin/install/bitvm-challenger/btc_tx.py:145-153 | a whole fold splits into the fold of zeros and the fold from zero |
| Bech32.ChecksumVerifies | bin/install/bitvm-challenger/btc_tx.py:160-163 | six five-bit values make the polymod 1 if and only if they are the created checksum (BIP 173) |
| Bech32.ConvertBits | bin/install/bitvm-challenger/btc_tx.py:166-179 | the output's bit string is the input's, padded with fewer than a group of zeros, or cut by fewer than a group |
| Bech32.RegroupsInjective | bin/install/bitvm-challenger/btc_tx.py:166-179 | equally long inputs with the same padded regrouping are equal |
| Bech32.EncodeP2wshAddress | bin/install/bitvm-challenger/btc_tx.py:182-190 | succeeds exactly on version-0 32-byte scripts and returns an address of the program |
| Bech32.AddressesDistinct | bin/install/bitvm-challenger/btc_tx.py:182-190 | distinct witness programs have distinct addresses |
| ChallengeEngine.IsHonestCompleteShape | bin/install/bitvm-challenger/challenge_engine.py:186-201 | the loop answers exactly whether some output pays the burner enough and some OP_RETURN names the burn |
| ChallengeEngine.BuildHonestComplete | bin/install/bitvm-challenger/challenge_engine.py:107-148 | succeeds exactly when the honest transaction exists and its numbers fit their fields, and returns its bytes |
| ChallengeEngine.EvaluateMempoolTx | bin/install/bitvm-challenger/challenge_engine.py:203-222 | skips if and only if the outputs have the honest shape; otherwise races if and only if the honest transaction at the race fee exists and its numbers fit their fields, with exactly its bytes |
| ChallengeEngine.PlanAutoRedeem | bin/install/bitvm-challenger/challenge_engine.py:224-239 | plans if and only if the honest transaction at the engine's fee exists and its numbers fit their fields, with exactly its bytes |
| ChallengeEngine.ConservesValue | bin/install/bitvm-challenger/challenge_engine.py:128-137 | input value is outputs plus a miner fee, at least the requested one and less than 546 above it |
| ChallengeEngine.HasHonestShape | bin/install/bitvm-challenger/challenge_engine.py:107-148 | every built transaction has the honest shape for its burn |
| ChallengeEngine.HonestTxSpends | bin/install/bitvm-challenger/challenge_engine.py:107-148 | it satisfies the program it spends if and only if the engine's delay meets the reserve's (and an instance's preimage fits) |
| ChallengeEngine.LongEnoughDelay | bin/install/bitvm-challenger/challenge_engine.py:139-147 | for 16-bit delays that is the engine's being at least the reserve's |
| ChallengeEngine.HonestIsNeverRaced | bin/install/bitvm-challenger/challenge_engine.py:203-222 | what one engine broadcasts, decoded from its bytes, has the honest shape for every engine |
| ChallengeEngine.HonestTakesTheDue | bin/install/bitvm-challenger/challenge_engine.py:128-137 | the outputs of a built transaction take from the reserve exactly what is due |
| ChallengeEngine.SkippedTakesExactly | bin/install/bitvm-challenger/challenge_engine.py:186-213 | whatever outputs are skipped take at least what is due, and no more if and only if one output pays the burner the exact amount and no other takes anything |
| ChallengeEngine.TakenAtLeast | bin/install/bitvm-challenger/bitvm_shared_pegout.py:15-19 | any output outside the reserve takes its value, and nothing more is taken if and only if all others return to it or carry nothing |
| ChallengeEngine.ReserveLoss | bin/install/bitvm-challenger/bitvm_shared_pegout.py:15-19 | the reserve loses what the outputs take and the miner fee |
| ChallengeEngine.ShapeIgnoresTheRest | bin/install/bitvm-challenger/challenge_engine.py:186-201 | any payout from the amount on and any third output are skipped, and the reserve loses both |
| ChallengeEngine.OverpaymentIsSkipped | bin/install/bitvm-challenger/challenge_engine.py:194-201 | two outputs that give the burner any larger amount are skipped |
| ChallengeEngine.ShapeIsMonotone | bin/install/bitvm-challenger/challenge_engine.py:186-201 | no added output spoils the shape |
| Slab.Carve | include/xrpl/basics/SlabAllocator.h:53-67 | the carving loop leaves a sound freelist over exactly the carved slots and touches no byte outside the block |
| Slab.CarvedSpaced | include/xrpl/basics/SlabAllocator.h:53-67 | carved slots lie inside the block and do not overlap |
| Slab.CarvedAligned | include/xrpl/basics/SlabAllocator.h:225-240 | every slot has the alignment of the first |
| Slab.PushSound | include/xrpl/basics/SlabAllocator.h:118-129 | threading a returned slot through memory keeps the freelist an acyclic chain that with the outstanding slots partitions the carved ones |
| Slab.PopSound | include/xrpl/basics/SlabAllocator.h:89-107 | taking the head keeps it too |
| Slab.ElsewhereSound | include/xrpl/basics/SlabAllocator.h:118-129 | a pointer written outside a block leaves that block's freelist alone |
| Slab.Memory.Write | include/xrpl/basics/SlabAllocator.h:89-107 | a client writing inside a slot it holds breaks no freelist |
| Slab.SlabBlock.constructor | include/xrpl/basics/SlabAllocator.h:53-67 | a new block has all its slots free and none outstanding |
| Slab.SlabBlock.Allocate | include/xrpl/basics/SlabAllocator.h:89-107 | hands out a free slot, or null exactly when none is free |
| Slab.SlabBlock.Deallocate | include/xrpl/basics/SlabAllocator.h:118-129 | an outstanding slot becomes free again, all other blocks staying sound |
| Slab.SlabAllocator.constructor | include/xrpl/basics/SlabAllocator.h:155-166 | for any slab size: the alignment asked for, and items of the least multiple of it that holds the requested bytes |
| Slab.SlabAllocator.Allocate | include/xrpl/basics/SlabAllocator.h:193-250 | an aligned slot that was not outstanding, from an old slab or a new one; null if and only if no slab has a free slot and none can be added |
| Slab.SlabAllocator.FromExisting | include/xrpl/basics/SlabAllocator.h:196-204 | the search takes the first slab with a free slot and fails exactly when none has one |
| Slab.SlabAllocator.NewSlab | include/xrpl/basics/SlabAllocator.h:206-247 | a new aligned slab after the header, linked first, exactly when header, padding and one item fit |
| Slab.SlabAllocator.Deallocate | include/xrpl/basics/SlabAllocator.h:259-277 | released exactly when the slot's block belongs to this allocator; only that slot changes status |
| Slab.SlabAllocatorSet.constructor | include/xrpl/basics/SlabAllocator.h:328-334 | the maximum is the largest item size |
| Slab.CreateSet | include/xrpl/basics/SlabAllocator.h:310-335 | fails exactly when two configurations ask for equally many extra bytes or there are too many; else one allocator per configuration, ascending by extra bytes |
| Slab.SortConfigs | include/xrpl/basics/SlabAllocator.h:312-316 | the sort by extra bytes is an ascending permutation |
| Slab.HasDuplicate | include/xrpl/basics/SlabAllocator.h:318-326 | comparing neighbours finds equal extra bytes exactly when any two are equal |
| Slab.SizesAscend | include/xrpl/basics/SlabAllocator.h:158-185 | under one alignment the item sizes ascend with the extra bytes, and two are equal if and only if the larger request fits the smaller item |
| Slab.FirstFitIsSmallest | include/xrpl/basics/SlabAllocator.h:355-368 | under one alignment the allocator that serves a request has the smallest items that fit |
| Slab.SameSizeTwice | include/xrpl/basics/SlabAllocator.h:318-326 | two configurations with different extra bytes and one item size |
| Slab.SizesDescend | include/xrpl/basics/SlabAllocator.h:312-316 | two configurations in order whose item sizes descend |
| Slab.SlabAllocatorSet.Allocate | include/xrpl/basics/SlabAllocator.h:355-368 | from the first allocator whose items hold the requested bytes, an aligned slot that was not outstanding, no other slot changing status; null if and only if there is no such allocator or it is exhausted |
| Slab.SlabAllocatorSet.Deallocate | include/xrpl/basics/SlabAllocator.h:377-387 | released exactly when the slot's block belongs to an allocator of the set |
| Slab.OutstandingDisjoint | include/xrpl/basics/SlabAllocator.h:193-277 | no two outstanding slots overlap, in one slab, across slabs or across allocators |
| TxIndex.CountSeqRange | tools/dashboard/server.py:241-261 | one count per ledger of the range, missing ones zero, and their sum |
| TxIndex.Advance | tools/dashboard/server.py:474-483 | the loop under the lock adds the counts of exactly the ledgers after the counted ones |
| TxIndex.NextKeeps | tools/dashboard/server.py:327-384 | every locked section of scanner and pollers, save, restart and abort keeps the index invariant; counted-through and tip never decrease without a restart |
| TxIndex.RunKeeps | tools/dashboard/server.py:426-491 | so does every interleaving of any length |
| TxIndex.TotalIsExact | tools/dashboard/server.py:426-491 | in every interleaving the total is the sum over the ledgers advanced through, each once; they are start..through if and only if start was never raised after counting |
| TxIndex.StartRaisedLate | tools/dashboard/server.py:447-455 | a run in which the total covers a ledger below start |
| TxIndex.TotalIsTrueExactly | tools/dashboard/server.py:241-261 | when fetches report the true count or fail, the total is at most the true sum over the counted ledgers, and equal if and only if every applied count was the true one |
| TxIndex.FailedFetchIsCounted | tools/dashboard/server.py:249-260 | a run that counts a ledger with nothing because its fetch failed |
| DepositRelay.Relay.RetryPending | scripts/bridge-deposit-relay.py:316-378 | the loop over the queue in order, the removal of what is minted and the saves compute the specified world, and raise exactly when it says |
| DepositRelay.Relay.ProcessDeposits | scripts/bridge-deposit-relay.py:381-454 | the loop over the logs, the cursor and the saves compute the specified world |
| DepositRelay.Relay.StartBlock | scripts/bridge-deposit-relay.py:560-571 | the first block and what is remembered of it |
| DepositRelay.Relay.PollOnce | scripts/bridge-deposit-relay.py:560-591 | a whole poll computes the specified world, aborted at any call or complete |
| DepositRelay.Relay.Loop | scripts/bridge-deposit-relay.py:593-605 | so does any sequence of polls and process restarts |
| DepositRelaySafety.QueueKeeps | scripts/bridge-deposit-relay.py:299-313 | queueing makes exactly that deposit handled and keeps the state consistent |
| DepositRelaySafety.MintKeeps | scripts/bridge-deposit-relay.py:431-446 | recording a mint keeps one record per mint that took effect |
| DepositRelaySafety.RetryKeeps | scripts/bridge-deposit-relay.py:316-378 | complete or aborted, a retry mints nothing twice, forgets nothing and leaves the cursor |
| DepositRelaySafety.ProcessKeeps | scripts/bridge-deposit-relay.py:381-454 | complete or aborted, a range does the same, and the cursor moves to its end only when every deposit of it is accounted for |
| DepositRelaySafety.ResumesAt | scripts/bridge-deposit-relay.py:561-564 | with a cursor a poll resumes one block on, except that an override replaces block 0 |
| DepositRelaySafety.FirstScanAt | scripts/bridge-deposit-relay.py:561-571 | without one the override decides, then the remembered block, then the newest less 50000, which is remembered |
| DepositRelaySafety.PollKeeps | scripts/bridge-deposit-relay.py:560-591 | complete or aborted at any call: nothing minted twice or forgotten, the cursor never back, newly handled deposits only from the blocks scanned; complete: every block up to the newest covered |
| DepositRelaySafety.GapOpens | scripts/bridge-deposit-relay.py:561-562 | a poll opens a gap if and only if it moves the cursor from block 0 under an override past block 1 |
| DepositRelaySafety.GapCoversExactly | scripts/bridge-deposit-relay.py:561-562 | after it the blocks up to the cursor are covered if and only if every deposit jumped over was handled before or is repeated in the blocks scanned |
| DepositRelaySafety.GapLosesADeposit | scripts/bridge-deposit-relay.py:561-562 | a poll that succeeds and leaves a deposit of a skipped block in no list |
| DepositRelaySafety.RunKeeps | scripts/bridge-deposit-relay.py:593-605 | every run of polls, aborted anywhere, and restarts keeps the state and the state file consistent |
| DepositRelaySafety.MintsOnce | scripts/bridge-deposit-relay.py:593-605 | over any such run, as long as no restart found a file without one of the mints, the mints that took effect are distinct and exactly those recorded |
| DepositRelaySafety.RunCovers | scripts/bridge-deposit-relay.py:593-605 | over any run in which no poll meets the cursor at block 0 with an override past block 1, every decodable deposit from the first scanned block to the cursor is minted, pending or reported failed |
| DepositRelaySafety.ConstantOverrideCovers | scripts/bridge-deposit-relay.py:560-605 | started from nothing with one override or none, any polls and restarts: every block from the first scanned one to the cursor is covered, and that first one is the override when it lies past block 1 |
| DepositRelaySafety.FileLacksMint | scripts/bridge-deposit-relay.py:431-448 | after a mint the file lacks it, and a restart forgets it, if and only if the save raised |
| DepositRelaySafety.ForgottenIsReissued | scripts/bridge-deposit-relay.py:405-432 | after a restart a deposit whose mint took effect is minted again, given a success reply, if and only if the file lacks it |
| DepositRelaySafety.RepeatedMint | scripts/bridge-deposit-relay.py:426-448 | a run in which a save raises after a mint and the restart mints the deposit a second time |
| DepositRelayRecovery.PollFollows | scripts/bridge-deposit-relay.py:560-591 | a poll makes known, saves and mints only deposits that were known or that it scans, moves no cursor back, and keeps everything the memory knows in the file or in front of the file's cursor |
| DepositRelayRecovery.ForgottenIsMetAgain | scripts/bridge-deposit-relay.py:371-454 | after any run, a mint that a restart forgets is queued or in a block in front of the restarted cursor |
| DepositRelayRecovery.AheadIsHandled | scripts/bridge-deposit-relay.py:581-591 | a deposit in front of the cursor is accounted for by a complete poll that scans its block |
| DepositRelayRecovery.PassedForEver | scripts/bridge-deposit-relay.py:316-454 | a deposit that neither memory nor file knows or has in front of a cursor is in no run ever queued or minted |
| DepositRelayRecovery.LogAttemptDecides | scripts/bridge-deposit-relay.py:405-448 | a log leaves its deposit neither minted nor queued if and only if it was so before and the attempt is reported failed |
| DepositRelayRecovery.PassedHasFailed | scripts/bridge-deposit-relay.py:426-454 | a deposit up to the cursor that is neither minted nor queued had an attempt reported failed, and is never minted unless its id comes again |
| DepositRelayRecovery.FailedIsPassed | scripts/bridge-deposit-relay.py:426-429 | one failed attempt and a complete poll: no later run mints the deposit |
| BaseUint.AddExact | include/xrpl/basics/base_uint.h:450-465 | sum plus carry out times 2^Bits is the mathematical sum, for any number of limbs |
| BaseUint.AddIsModular | include/xrpl/basics/base_uint.h:450-465 | `+=` is addition modulo 2^Bits |
| BaseUint.IncrementIsModular | include/xrpl/basics/base_uint.h:387-399 | `++` is addition of one modulo 2^Bits |
| BaseUint.DecrementIsModular | include/xrpl/basics/base_uint.h:411-424 | `--` is subtraction of one modulo 2^Bits |
| BaseUint.IncrementDecrement | include/xrpl/basics/base_uint.h:436-448 | `++` and `--` undo each other |
| BaseUint.CompareIsNumeric | include/xrpl/basics/base_uint.h:542-561 | the byte-lexicographic order is the numeric order |
| BaseUint.BaseUInt.Increase | include/xrpl/basics/base_uint.h:387-399 | the carry loop in place computes `++` and its value |
| BaseUint.BaseUInt.Decrease | include/xrpl/basics/base_uint.h:411-424 | the borrow loop in place computes `--` and its value |
| BaseUint.BaseUInt.AddAssign | include/xrpl/basics/base_uint.h:450-465 | the carry loop in place computes the modular sum, also of a number with itself |
| BaseUint.BaseUInt.Assign | include/xrpl/basics/base_uint.h:342-358 | after assignment from a 64-bit integer the limbs denote that integer |
| BaseUint.BaseUInt.Compare | include/xrpl/basics/base_uint.h:542-561 | the mismatch search returns the numeric order |
| WideArith.MulDiv64IsFloor | include/xrpl/basics/WideArith.h:39-46 | for b <= d the result is floor(a*b/d), defined exactly when (a mod d)*b fits |
| WideArith.SafeForEveryMultiplicand | include/xrpl/basics/WideArith.h:25-46 | no multiplicand overflows if and only if (d-1)*b < 2^63 |
| WideArith.SharesConserve | include/xrpl/basics/WideArith.h:39-46 | shares of at most the whole never pay out more than a; n >= 1 shares of exactly the whole lose fewer than n units |
| WideArith.WideIsFloor | include/xrpl/basics/WideArith.h:48-57 | the 128-bit build is the floor if and only if the floor fits 64 bits |
| WideArith.WideShareIsFloor | include/xrpl/basics/WideArith.h:48-57 | it always is for b <= d |
| WideArith.BuildsAgree | include/xrpl/basics/WideArith.h:49-65 | the two builds agree if and only if d is 0 or (a mod d)*b < 2^64 |
| WideArith.BuildsDisagree | include/xrpl/basics/WideArith.h:58-65 | arguments on which they differ |
| Numbers.LogTen | include/xrpl/basics/Number.h:19-32 | the exponent of a power of ten, and nothing exactly for every other value |
| Numbers.MakeRange | include/xrpl/basics/Number.h:70-102 | both ranges are whole decades that fit 64 bits, named by their logarithm |
| Numbers.LessIsStrictTotalOrder | include/xrpl/basics/Number.h:298-339 | on normal numbers of one scale `operator<` is a strict total order consistent with `operator==` |
| Numbers.LessIsNumeric | include/xrpl/basics/Number.h:311-339 | it is the numeric order if and only if the pair is not two different negatives with one exponent |
| Numbers.EqualIsNumeric | include/xrpl/basics/Number.h:298-303 | normal numbers are equal if and only if they denote the same value |
| Numbers.MinusOneRanksBelowMinusTwo | include/xrpl/basics/Number.h:311-339 | -1 is ranked below -2 |
| Numbers.ExternalViewDenotes | include/xrpl/basics/Number.h:551-585 | mantissa() and exponent() fit 63 bits and denote the number itself |
| Numbers.ExternalViewDetermines | include/xrpl/basics/Number.h:551-585 | normal numbers with the same view are equal |
| Numbers.NegateDenotes | include/xrpl/basics/Number.h:593-601 | unary minus keeps normality, undoes itself and negates the value |
| Numbers.ExtremesBound | include/xrpl/basics/Number.h:677-697 | lowest() and max() bound a normal number if and only if it is not one of the wide mantissas at the top exponent |
| Numbers.LowestIsNotLeast | include/xrpl/basics/Number.h:683-687 | exactly which normal numbers `operator<` puts below lowest() |
| Normalize.PushTracks | src/libxrpl/basics/Number.cpp:148-161 | pushing a digit keeps the guard word and sticky bit comparing the dropped remainder with zero and with half a unit |
| Normalize.Guard.Push | src/libxrpl/basics/Number.cpp:148-161 | the same of the guard object in place |
| Normalize.Guard.RoundIsAway | src/libxrpl/basics/Number.cpp:171-210 | the rounding decision is the one the mode asks for on the exact remainder |
| Normalize.DirectResult | src/libxrpl/basics/Number.cpp:212-262 | what rounding up and bringing into range make of a mantissa that fits 63 bits, case by case |
| Normalize.ShiftedResult | src/libxrpl/basics/Number.cpp:212-262 | the same for a mantissa that gave up a digit first |
| Normalize.DirectOutcome | src/libxrpl/basics/Number.cpp:212-262 | the whole promise for such mantissas: normal result, exact overflow, faithful rounding outside the lost magnitudes |
| Normalize.ShiftedOutcome | src/libxrpl/basics/Number.cpp:422-437 | the same for the wide ones |
| Normalize.ScaleUp | src/libxrpl/basics/Number.cpp:384-389 | the first loop keeps the value and fills the mantissa or reaches the lowest exponent |
| Normalize.ScaleDown | src/libxrpl/basics/Number.cpp:390-400 | the second loop keeps value = digits plus tracked remainder, and throws only above the range |
| Normalize.DoNormalize | src/libxrpl/basics/Number.cpp:361-442 | for every magnitude, scale and mode: zero exactly below the smallest normal number, an error exactly above the range, otherwise a normal number of the same sign that is the value rounded as the mode says if and only if the magnitude is not lost; settled numbers are returned unchanged |
| Normalize.LostExamples | src/libxrpl/basics/Number.cpp:247-259 | 2^63 - 0.1 to nearest and 2^63 towards zero are lost, and become 9223372036854775800 |
| RangeSet.InsertIsUnion | include/xrpl/basics/RangeSet.h:49-50 | inserting an interval keeps the set canonical and adds exactly its values |
| RangeSet.ToString | include/xrpl/basics/RangeSet.h:78-91 | the loop joins the intervals' strings with commas, "empty" for none |
| RangeSet.FromString | include/xrpl/basics/RangeSet.h:102-161 | accepts if and only if every token parses, then holds exactly the tokens' values in canonical form within the type; a rejected string leaves the set empty |
| RangeSet.ParsedMeans | include/xrpl/basics/RangeSet.h:102-161 | adding tokens to any canonical set within the type gives exactly the union with their values, canonical and within the type |
| RangeSet.RoundTrip | include/xrpl/basics/RangeSet.h:61-161 | every non-empty canonical set over the type parses back from its string |
| RangeSet.EmptyDoesNotParse | include/xrpl/basics/RangeSet.h:82-83 | the empty set's string is rejected |
| RangeSet.PrevMissingFound | include/xrpl/basics/RangeSet.h:171-182 | for non-empty sets and t > minVal the greatest absent value in [minVal, t-1], or nothing when there is none |
| RangeSet.PrevMissingExactly | include/xrpl/basics/RangeSet.h:163-182 | over all arguments, exactly when the documented result is returned |
| Algorithm.GeneralizedSetIntersection | include/xrpl/basics/algorithm.h:14-40 | the loop acts on the merge's matched pairs in order |
| Algorithm.MatchesAreMatched | include/xrpl/basics/algorithm.h:14-40 | on sorted ranges the pairs are of equivalent elements, their first and second components exactly the elements of either range matched one-for-one |
| Algorithm.RemoveIfIntersectOrMatch | include/xrpl/basics/algorithm.h:54-97 | the in-place loop leaves the merge's survivors at the front, never reading an overwritten element |
| Algorithm.SurvivorsAreUnmatched | include/xrpl/basics/algorithm.h:54-97 | on sorted ranges the survivors are, in order, exactly the elements not matched one-for-one that fail the predicate |
| Algorithm.DocumentedExactly | include/xrpl/basics/algorithm.h:42-54 | the documented effect is met if and only if no surplus duplicate exists |
| Algorithm.DuplicateFree | include/xrpl/basics/algorithm.h:42-54 | without duplicates it is the set difference minus the predicate's matches |
| Algorithm.DuplicateSurvives | include/xrpl/basics/algorithm.h:42-54 | two equal elements against one: the second survives |
| IncludeGraph.FirstHit | bin/pre-commit/clang_tidy_check.py:65-71 | a name resolves exactly when it exists below some root, and to an existing file |
| IncludeGraph.BuildIncludeGraph | bin/pre-commit/clang_tidy_check.py:35-73 | the worklist ends with exactly the files some unit brings in scanned, and the graph is exactly their reversed include relation |
| IncludeGraph.ScanFile | bin/pre-commit/clang_tidy_check.py:57-71 | the loop over one file's lines records exactly its edges and queues what it includes |
| IncludeGraph.FindUnit | bin/pre-commit/clang_tidy_check.py:87-108 | for any graph and any set order: only a unit reached from the header, none only if there is none, a namesake if any is reached |
| IncludeGraph.WalkIncluders | bin/pre-commit/clang_tidy_check.py:93-105 | the inner loop pushes each first-visited includer once and takes account of all of them, or stops at a namesake |
| IncludeGraph.CandidateIsIncluder | bin/pre-commit/clang_tidy_check.py:35-110 | in the built graph the candidates are exactly the units that transitively include the header |
| IncludeGraph.FindUnitsForHeaders | bin/pre-commit/clang_tidy_check.py:76-110 | every header gets a representative or no unit includes it, and nothing else is chosen |
| IncludeGraph.ResolveHeaders | bin/pre-commit/clang_tidy_check.py:136-137 | both halves together, stated on the include relation alone |

## Left out

- `IntrusivePointer.ipp` and `SharedWeakCachePointer.ipp`, the smart pointers over the counts; their use of the counts enters as the client rules of the protocol.
- Reference counts as a mutable object: the word is the state of a transition system, since the property is about interleavings of many threads; weak memory orders are not modelled.
- Counts that reach the checked maxima: steps that would exceed them are not enabled, as the debug assertions demand.
- Script opcodes other than those the programs use, signature checks and consensus rules outside BIP 68, 112, 141 and 144.
- Parsing of accounts (base58), hex strings and ledger objects into burns; txids and scripts arrive as bytes, and accounts have 20 bytes.
- `build_dodgy_steal`, `build_complete_outputs`, JSON descriptions and command lines of the challenger.
- The slab mutex and the compare-exchange that links a slab: operations on one memory run one after another.
- A slab smaller than its header for which the system allocator nevertheless returns memory: the
  source's size subtraction then wraps; the model's allocator gets no memory for such a slab. Items
  are assumed to hold a pointer.
- The dashboard's mirror mode, transaction rate, progress figures, HTML and host metrics; file errors while saving the index.
- The order in which a ledger's counts arrive from worker threads: `CountSeqRange` receives the finished map.
- Mint replies that are wrong (a mint that took effect although the call raised): replies are taken as truthful, as at-most-once minting cannot hold otherwise.
- A state file left truncated by a failed write: a save that raises leaves the file as it was. A process killed between a mint reply and its save is such a save followed by a restart.
- Decoding of EVM logs and float amounts: a log is malformed or a deposit.
- `Number` addition, multiplication, division, roots, conversion to integers and printing; normalization, which all of them end in, is modelled.
- The byte swaps of `base_uint.h` on little-endian hosts: limbs are their native values, and the bytes compared are their big-endian bytes.
- `lexicalCastChecked` beyond one optional `+` and a non-empty digit string within the type.
- The include regular expression and path resolution: a file's include names and each root's candidate path are given.
- RPC, consensus, ledger, transactors, cryptography, lending and faucet scripts, code generators and the user interface.
