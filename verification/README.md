# A model of the DECENT blockchain node, with proofs

The node keeps a chain of blocks and a database of objects that the blocks change. This project models the parts
of it whose correctness rests on state, protocols and arithmetic, and proves what they are for. `dafny verify
dfyconfig.toml` checks all of it.

| module | what it models |
|---|---|
| `UndoDeltas`, `UndoSpec`, `UndoDatabases` | the undo database: deltas of created, changed and removed objects, against a stack of full copies |
| `Forks`, `ForkDatabases` | the tree of recent blocks with its weak links, and the branches between two heads |
| `ChainSpec`, `ChainTheorems`, `ChainStuck`, `ChainExample`, `ChainDatabases` | pushing blocks: the normal path, the fork switch, and the restore of a failed switch |
| `PendingTransactions` | transactions and proposals applied in nested sessions |
| `ModularArithmetic`, `Polynomials`, `ShamirSecrets` | key sharing over a prime field |
| `ElGamal` | encryption of shares and the proof of their delivery |
| `BilinearGroups`, `CustodyReaders`, `Custody` | the proof of custody, and the two ways it reads a file |
| `LedgerSpec`, `LedgerLaw`, `LedgerRuns`, `LedgerBalances`, `LedgerDatabases` | balances, escrows, pools, fees, miners' pay and maintenance, and the conservation of the core asset |
| `SeederRewards`, `Budgets` | the payment of seeders from a content's escrow, and of miners from the budget of fees |
| `VestingSpec`, `VestingBalances` | coin-days and linear vesting |
| `Synopses` | how two nodes find where their chains part |
| `MinerSchedules`, `Irreversibility` | slots, the shuffle of miners, and the last irreversible block |
| `AccountIndexes`, `AmountTexts` | the index of account members, and amounts as text |

Code that changes objects in place is modelled by classes and loops. Their contracts tie the new state to functions on
values, and the properties are lemmas about those functions. A method that throws returns `false`, `None` or an error.

## What the proofs found

Where a promise of the code is not kept for all inputs, the exact condition is proved.

- A failed fork switch restores the old branch except when the fork database does not reach back far enough for the pops in
  between (`SwitchStuckExactly`, `PushStuckExactly`). For a new branch one block longer, that is when only its tip is refused
  and the block under the fork has been dropped (`OneLongerStuckExactly`). A fork at genesis is such a case on every node
  (`RestoreCanFail`).
- The delivery proof of the zero message is refused unless the challenge happens to be 0, since the verifier inverts a power
  of 0 (`DeliveryProofExactly`, `ZeroMessageRefused`).
- Contents above 4294967040 bytes (4294966400 with 100 sectors) have a block that the two readers of the proof of custody read differently, because
  positions are 32-bit (`ReadersAgreeExactly`, `ReadersAgreeBelowBound`).
- The assertion of `process_budget` counts vesting balances and escrows of every asset as core coins. It holds exactly
  when the amounts held there in other assets equal the drift of the run (`AssertionExactly`). Drift comes from fees for
  new assets that are odd or not in the core asset, and from core coins spent on monitored assets (`PerformLaw`).
- A linear vesting balance accepts deposits although its documentation says that none may be added
  (`libraries/chain/include/graphene/chain/vesting_balance_object.hpp:61`). The assertions of a later withdrawal then hold
  exactly when no more was added than withdrawn (`LinearRunExactly`, `LinearDepositExactly`). The model follows the code.
- The comment in `_push_block` that popping expects two commits in all cases does not hold for the code: one commit is made
  and the second session is merged (`libraries/chain/db_block.cpp:227`). The model follows the code.
- A negative amount with a fraction is printed with its first fractional digit lost, and without its sign if it is less than
  one unit. Negative amounts are parsed back exactly when they have no fraction (`AmountTexts.RoundTripExactly`).
- Block headers are not checked to stand on a slot's time. The budget theorem therefore asks only for increasing slots.

## Model

| member | source | states |
|---|---|---|
| UndoDeltas.CreateKeepsDelta | libraries/db/undo_database.cpp:47-58 | recording a creation keeps the innermost state an exact delta to the store it started from, next-id counter included |
| UndoDeltas.ModifyKeepsDelta | libraries/db/undo_database.cpp:60-72 | recording a change keeps the delta: only the first old value of an older object is kept |
| UndoDeltas.RemoveKeepsDelta | libraries/db/undo_database.cpp:73-93 | recording a removal keeps the delta, whether the object is new, changed or untouched in the state |
| UndoDeltas.UndoRestores | libraries/db/undo_database.cpp:95-125 | reverting a delta gives back exactly the store it started from: all objects and all next-id counters |
| UndoDeltas.ContainersDisjoint | libraries/db/undo_database.cpp:47-93 | in every reachable state new ids, old values and removed objects are pairwise disjoint |
| UndoDeltas.MergeKeepsDelta | libraries/db/undo_database.cpp:127-240 | the merged state is a delta from the parent's start to the child's end |
| UndoDeltas.MergeComposes | libraries/db/undo_database.cpp:127-240 | undoing the merged state equals undoing the child and then the parent |
| UndoDeltas.MergeFollowsTable | libraries/db/undo_database.cpp:134-192 | for every object, the merge gives the cell of the documented 4x4 table of new, changed, removed and untouched |
| UndoDeltas.NotApplicableUnreachable | libraries/db/undo_database.cpp:160-192 | the cells that the table calls not applicable never occur for states of one stack |
| UndoSpec.UndoRestoresSessionStart | libraries/db/undo_database.cpp:33-46 | over any run of nested sessions and changes, the undo that closes a session restores the store its start saw |
| UndoSpec.PopCommitRestoresSessionStart | libraries/db/undo_database.cpp:247-282 | after a commit, popping the committed state restores the store that its session's start saw |
| UndoSpec.PopsRestoreInTurn | libraries/db/undo_database.cpp:247-282 | any number of committed sessions, with any nesting inside them, is taken back one by one: k pops restore the store of before the last k |
| UndoSpec.RunHolds | libraries/db/undo_database.cpp:95-282 | while a session stays open, nothing that happens inside it loses the copy of the store it started from |
| UndoSpec.InnerCommitDefeatsOuterUndo | libraries/db/undo_database.cpp:241-245 | committing an inner session under an open one makes the outer undo restore the inner start: the nesting discipline is needed |
| UndoDatabases.UndoDatabase.StartUndoSession | libraries/db/undo_database.cpp:33-46 | opens a state on the trimmed stack, and means a pushed full copy of the store |
| UndoDatabases.UndoDatabase.Create | libraries/db/undo_database.cpp:47-58 | an object is created and recorded; the stack of copies is as the meaning says |
| UndoDatabases.UndoDatabase.Modify | libraries/db/undo_database.cpp:60-72 | an object is changed and recorded; the stack of copies is as the meaning says |
| UndoDatabases.UndoDatabase.Remove | libraries/db/undo_database.cpp:73-93 | an object is removed and recorded; the stack of copies is as the meaning says |
| UndoDatabases.UndoDatabase.Undo | libraries/db/undo_database.cpp:95-125 | the store becomes the top copy, the state is dropped |
| UndoDatabases.UndoDatabase.Merge | libraries/db/undo_database.cpp:127-240 | the two top states become one that means the lower copy; the store is untouched |
| UndoDatabases.UndoDatabase.Commit | libraries/db/undo_database.cpp:241-245 | only the number of active sessions changes |
| UndoDatabases.UndoDatabase.PopCommit | libraries/db/undo_database.cpp:247-282 | the store becomes the top copy of a stack without active sessions |
| UndoDatabases.MergeInto | libraries/db/undo_database.cpp:193-240 | the three merge loops, in place on the parent, compute the merged state |
| UndoDatabases.UndoDatabase.Perform | libraries/db/undo_database.cpp:33-282 | any sequence of calls refines the same run on a stack of full copies |
| ForkDatabases.ForkDatabase.PushBlock | libraries/chain/fork_database.cpp:58-106 | links a block to its predecessor and moves the head to a higher block, or throws for one too old or unlinkable |
| ForkDatabases.ForkDatabase.SetMaxSize | libraries/chain/fork_database.cpp:129-158 | items below the window are erased |
| ForkDatabases.ForkDatabase.Remove | libraries/chain/fork_database.cpp:248-251 | an item is erased by its id |
| ForkDatabases.ForkDatabase.PopBlock | libraries/chain/fork_database.cpp:39-45 | the head moves to its predecessor, if that is still alive |
| ForkDatabases.ForkDatabase.FetchBranchFrom | libraries/chain/fork_database.cpp:199-241 | the three pointer walks end, and give the two branches of the specification |
| Forks.PushKeepsTree | libraries/chain/fork_database.cpp:74-106 | pushing keeps the tree sound: items sit under their ids and link to their predecessors |
| Forks.WithMaxSizeKeepsTree | libraries/chain/fork_database.cpp:129-158 | cutting the window keeps the tree sound |
| Forks.FetchBranchFinds | libraries/chain/fork_database.cpp:199-241 | a returned pair of branches are linked paths from the given ids down to two blocks with one predecessor, at the greatest height where the predecessors agree |
| Forks.FetchBranchAlive | libraries/chain/fork_database.cpp:199-241 | every node of the branches is still held by the database |
| ChainDatabases.ChainDatabase.TryApply | libraries/chain/db_block.cpp:196-207 | a session around one block: committed if the block applies, undone if it throws |
| ChainDatabases.ChainDatabase.Pop | libraries/chain/db_block.cpp:438-451 | pop_block, with the assertions that can throw in its middle |
| ChainDatabases.ChainDatabase.SwitchTo | libraries/chain/db_block.cpp:139-192 | the fork switch: pop to the fork, push the new branch, and on failure restore the old one |
| ChainDatabases.ChainDatabase.PushBlock | libraries/chain/db_block.cpp:129-232 | _push_block does what the specification on values says, on every path |
| ChainTheorems.PushKeepsReplay | libraries/chain/db_block.cpp:129-232 | after any push, returned or thrown, the store is the plain replay of apply_block over the chain that ends in its head |
| ChainTheorems.RunKeepsReplay | libraries/chain/db_block.cpp:129-232 | the same over every sequence of pushed blocks |
| ChainTheorems.PushOutcome | libraries/chain/db_block.cpp:129-232 | a rejected block leaves the store of before the call, also after a failed switch; a switch ends at the new tip |
| ChainTheorems.SwitchRestores | libraries/chain/db_block.cpp:139-192 | a failed switch that ends with the block's own exception has restored exactly the old store |
| ChainTheorems.RestoreRestores | libraries/chain/db_block.cpp:179-187 | re-applying the old branch ends in the store of before the switch |
| ChainStuck.SwitchStuckExactly | libraries/chain/db_block.cpp:139-192 | for branches of any length within the undo history: a switch ends with the chain neither switched nor restored exactly when the head of the fork database cannot be moved back far enough, down the old branch or over the new blocks applied before the first refused one |
| ChainStuck.PushStuckExactly | libraries/chain/db_block.cpp:129-232 | the same for a whole push: it throws half way exactly when it leads to such a switch |
| ChainStuck.OneLongerStuckExactly | libraries/chain/db_block.cpp:139-192 | when the new branch is one block longer, that is exactly when only its tip is refused and the fork database does not hold the block under the fork |
| ChainStuck.PopExactly | libraries/chain/db_block.cpp:149-150 | a stretch of the chain within the undo history is popped down to its end exactly when the head of the fork database can be moved back as often |
| ChainExample.RestoreCanFail | libraries/chain/db_block.cpp:164-188 | on any fresh node, a fork right at genesis whose second block is refused leaves the node on the new branch's first block |
| PendingTransactions.PendingPool.PushTransaction | libraries/chain/db_block.cpp:259-282 | a transaction that applies is added on top of the pending ones; one that does not changes nothing; the head's store stays recoverable |
| PendingTransactions.PendingPool.ClearPending | libraries/chain/db_block.cpp:453-458 | the store is the head's again |
| PendingTransactions.InTemporarySession | libraries/chain/db_block.cpp:271-277 | changes in a nested session are merged, or undone without a trace |
| PendingTransactions.PushProposal | libraries/chain/db_block.cpp:290-314 | a proposal's operations all apply or none does, with undoing forced on for their time only; the store and the stack of copies afterwards |
| Polynomials.RootsVanish | libraries/encrypt/encryptionutils.cpp:405-426 | a polynomial with as many distinct roots modulo a prime as coefficients vanishes everywhere |
| Polynomials.Interpolates | libraries/encrypt/encryptionutils.cpp:409-424 | Lagrange weights give the value at any point of the polynomial through the nodes |
| Polynomials.InterpolationUnique | libraries/encrypt/encryptionutils.cpp:405-426 | every polynomial of lower degree through the shares has the combined value at 0 |
| ModularArithmetic.InverseOf | libraries/encrypt/encryptionutils.cpp:421-422 | the multiplicative inverse modulo a prime times the number is 1 |
| ModularArithmetic.PrimeDivides | libraries/encrypt/encryptionutils.cpp:409-422 | a prime that divides a product divides a factor |
| ShamirSecrets.ShamirSecret.CalculateSplit | libraries/encrypt/encryptionutils.cpp:382-403 | the shares are the points 1 to n of a polynomial with the secret as constant coefficient |
| ShamirSecrets.ShamirSecret.CalculateSecret | libraries/encrypt/encryptionutils.cpp:405-426 | the loops compute the Lagrange sum at 0 of the shares held |
| ShamirSecrets.EnoughSharesRecover | libraries/encrypt/encryptionutils.cpp:382-426 | any quorum or more of distinct shares, in any order, give back exactly the secret |
| ShamirSecrets.TooFewSharesFitAnySecret | libraries/encrypt/encryptionutils.cpp:382-403 | one share short of the quorum, every secret is still possible for the coefficients that can be drawn |
| ShamirSecrets.SplitThenJoin | libraries/encrypt/encryptionutils.cpp:382-426 | splitting a secret and joining distinct shares returns it whenever they are found to be enough, which is when they are a quorum |
| ElGamal.ElGamalEncrypt | libraries/encrypt/encryptionutils.cpp:152-192 | the ciphertext of the packed message, for a draw that may have been made |
| ElGamal.ElGamalDecrypt | libraries/encrypt/encryptionutils.cpp:194-231 | the halves of C1 over the shared secret |
| ElGamal.RoundTripExactly | libraries/encrypt/encryptionutils.cpp:152-231 | decryption returns the message exactly when both halves fit in 32 bytes and the packed message is below the modulus |
| ElGamal.EncryptWithProof | libraries/encrypt/encryptionutils.cpp:321-380 | outgoing ciphertext and proof, for draws that may have been made |
| ElGamal.EncryptWithDraws | libraries/encrypt/encryptionutils.cpp:338-366 | outgoing ciphertext and proof are those of the draws, with responses to the hash of all they commit to |
| ElGamal.ResponseOpens | libraries/encrypt/encryptionutils.cpp:304-310 | a response opens its commitment for any base, challenge and secret |
| ElGamal.ThirdCheck | libraries/encrypt/encryptionutils.cpp:312-322 | the last check holds exactly when the challenge is 0, C1 is a unit or D1 is none |
| ElGamal.DeliveryProofExactly | libraries/encrypt/encryptionutils.cpp:283-380 | a proof for the decryption of the incoming ciphertext is accepted, for any hash and draws, exactly when the challenge is 0, C1 is a unit or D1 is none: it fails for the zero message |
| ElGamal.ZeroMessageRefused | libraries/encrypt/encryptionutils.cpp:283-380 | an honest delivery of the zero message decrypts to it, and its proof is accepted for the challenge 0 alone |
| ElGamal.BuyerRecovers | libraries/encrypt/encryptionutils.cpp:194-380 | what is re-encrypted for the buyer decrypts under the buyer's key to the same message |
| ElGamal.Deliver | libraries/encrypt/encryptionutils.cpp:152-380 | author to seeder to buyer: for every nonzero share the proof is accepted and the share arrives |
| CustodyReaders.GetN | libraries/encrypt/custodyutils.cpp:91-102 | the number of blocks covers the file, and one less does not |
| CustodyReaders.DataByte | libraries/encrypt/custodyutils.cpp:104-123 | every byte of a block read whole is that of the zero-padded file from the 32-bit start position on |
| CustodyReaders.NumberByte | libraries/encrypt/custodyutils.cpp:126-150 | every byte of a number read alone is that of the zero-padded file from its own 32-bit position on |
| CustodyReaders.ReadersAgreeExactly | libraries/encrypt/custodyutils.cpp:104-150 | the two readers agree on a block, for every file of a length, exactly when the block does not straddle a multiple of 2^32 |
| CustodyReaders.ReadersAgreeBelowBound | libraries/encrypt/custodyutils.cpp:104-150 | no block of a content straddles exactly when the content has at most 4294967040 bytes (20 sectors) or 4294966400 bytes (100 sectors) |
| Custody.GetSigma | libraries/encrypt/custodyutils.cpp:152-197 | a block's signature: the product of the seed elements to its numbers, times the index hash, to the private key |
| Custody.GetSigmas | libraries/encrypt/custodyutils.cpp:199-255 | the batches fill in the signature of every block |
| Custody.ComputeMu | libraries/encrypt/custodyutils.cpp:258-284 | each mu is the combination of its column of the queried rows, in the field |
| Custody.Indices | libraries/encrypt/custodyutils.cpp:286-316 | a query has at most sixteen indices, all below the number of blocks |
| Custody.GenerateQueryFromSeed | libraries/encrypt/custodyutils.cpp:286-316 | the loop draws those indices and coefficients |
| Custody.Verify | libraries/encrypt/custodyutils.cpp:319-392 | accepts exactly when the pairing equation holds for the products of hashes and of seed elements |
| Custody.ComputeSigma | libraries/encrypt/custodyutils.cpp:404-422 | the product of the queried signatures to their coefficients |
| Custody.VerifyByMiner | libraries/encrypt/custodyutils.cpp:434-490 | the miner recomputes the query from the seed and checks the equation |
| Custody.CreateCustodyData | libraries/encrypt/custodyutils.cpp:492-559 | the public key and the signatures of all blocks |
| Custody.CreateProofOfCustody | libraries/encrypt/custodyutils.cpp:562-669 | the answer to the query, for the guessed sector count, and whether it verifies |
| Custody.Swap | libraries/encrypt/custodyutils.cpp:258-284 | the double product: signatures combined by block are hashes and seed elements combined by block and by sector |
| Custody.SectorsGuess | libraries/encrypt/custodyutils.cpp:574-585 | the guess of the sector count is wrong only for 100 sectors and a content of at most 320 bytes |
| Custody.Completeness | libraries/encrypt/custodyutils.cpp:258-431 | over any bilinear group, the answer for any queried blocks that do not straddle is accepted, whatever the sector count and its guess |
| Custody.SignThenProve | libraries/encrypt/custodyutils.cpp:492-669 | custody data and then a proof, for any content within the bound, any key and any seed, is accepted |
| BilinearGroups.MoveExponent | libraries/encrypt/custodyutils.cpp:319-392 | an exponent moves from one side of the pairing to the other |
| BilinearGroups.LawsCanBeMet | libraries/encrypt/custodyutils.cpp:55-60 | the assumed laws have a model whose pairing is not constant |
| LedgerRuns.AdjustGives | libraries/chain/db_balance.cpp:54-80 | an adjustment changes one account's balance in one asset by the amount, and no other |
| LedgerRuns.PayoutGives | libraries/chain/decent_evaluator.cpp:25-45 | every co-author gets its truncated parts, the author exactly the remainder, nobody else anything |
| LedgerRuns.PayoutSucceeds | libraries/chain/decent_evaluator.cpp:25-45 | a payout with splits of at most 10000 basis points never throws |
| LedgerLaw.AdjustLaw | libraries/chain/db_balance.cpp:54-80 | an adjustment moves the gap of the law by its core coins, and keeps balances nonnegative |
| LedgerLaw.PayoutLaw | libraries/chain/decent_evaluator.cpp:25-45 | whatever the split, a payout moves the gap by exactly the coins paid |
| LedgerLaw.ConvertLaw | libraries/chain/include/graphene/chain/asset_object.hpp:122-193 | a user-issued asset's pools make up for a conversion; only a monitored asset mints or burns |
| LedgerLaw.BuyLaw | libraries/chain/decent_evaluator.cpp:484-530 | a purchase moves the gap only by core coins turned into a monitored asset |
| LedgerLaw.DeliverLaw | libraries/chain/decent_evaluator.cpp:598-651 | delivering keys keeps the gap: what is paid out was in escrow |
| LedgerLaw.ProveLaw | libraries/chain/decent_evaluator.cpp:833-898 | a seeder's payment keeps the gap, capped or not |
| LedgerLaw.SubmitLaw | libraries/chain/decent_evaluator.cpp:309-368 | the publishing fee moves from the author into the escrow |
| LedgerLaw.VestLaw | libraries/chain/vesting_balance_evaluator.cpp:81-100 | creating a vesting balance keeps the gap |
| LedgerLaw.WithdrawLaw | libraries/chain/vesting_balance_evaluator.cpp:117-137 | withdrawing from one keeps the gap |
| LedgerLaw.ChangeSupplyLaw | libraries/chain/asset_evaluator.cpp:122-131 | issuing, and reserving, move record and balances together |
| LedgerLaw.MovePoolsLaw | libraries/chain/asset_evaluator.cpp:241-299 | funding pools and claiming from them keep the gap |
| LedgerLaw.FeeLaw | libraries/chain/evaluator.cpp:50-97 | a fee's route through the pools moves the gap by the core fee, to be made up by its payer |
| LedgerLaw.PerformLaw | libraries/chain/include/graphene/chain/evaluator.hpp:137-168 | every operation with its fee moves the gap by its drift: the odd unit of an asset-creation fee, its converted half, core coins spent on a monitored asset; nothing else |
| LedgerLaw.PayMinerLaw | libraries/chain/db_update.cpp:102-139 | paying a block's miner keeps the gap |
| LedgerLaw.ExpireContentLaw | libraries/chain/db_decent.cpp:60-77 | the refund of an escrow keeps the gap, also of an overdrawn one |
| LedgerLaw.ExpireBuyingLaw | libraries/chain/db_decent.cpp:43-58 | the refund of a purchase keeps the gap |
| LedgerLaw.RealSupplyCounts | libraries/chain/db_decent.cpp:395-434 | get_real_supply is the core coins held plus the amounts of other assets in vesting balances and escrows |
| LedgerLaw.ProcessBudgetLaw | libraries/chain/db_maint.cpp:134-205 | the budget keeps the gap, and its assertion holds exactly when the gap is what is held in other assets |
| LedgerRuns.StepLaw | libraries/chain/db_block.cpp:511-569 | every transaction or block, done whole or undone by an exception, keeps the ledger sound and moves the gap by its drift |
| LedgerRuns.RunLaw | libraries/chain/db_maint.cpp:134-216 | every run of them keeps the ledger sound and moves the gap by the sum of the drifts |
| LedgerRuns.GenesisLaw | libraries/chain/db_init.cpp:274-296 | the law holds at genesis |
| LedgerRuns.AssertionExactly | libraries/chain/db_maint.cpp:185-190 | after any run of blocks that apply or throw, the assertion of process_budget holds exactly when the drifts of what was applied amount to what is held in other assets |
| LedgerRuns.AssertionNeverFires | libraries/chain/db_maint.cpp:185-190 | from genesis on, the assertion never fails in runs that keep vesting balances and prices in the core asset and pay even core fees for new assets |
| LedgerRuns.VestingBreaksAssertion | libraries/chain/vesting_balance_evaluator.cpp:81-100 | a new vesting balance breaks an assertion that held exactly when it is not in the core asset |
| LedgerDatabases.LedgerDatabase.AdjustBalance | libraries/chain/db_balance.cpp:54-80 | the balance table after an adjustment, or the exception |
| LedgerDatabases.LedgerDatabase.ContentPayout | libraries/chain/decent_evaluator.cpp:25-45 | the loop over co-authors with its running remainder |
| LedgerDatabases.LedgerDatabase.ConvertCoins | libraries/chain/include/graphene/chain/asset_object.hpp:122-193 | a conversion and its changes of the pools |
| LedgerDatabases.LedgerDatabase.BuyContent | libraries/chain/decent_evaluator.cpp:484-530 | the purchase record, the payment and, without seeders, the payout |
| LedgerDatabases.LedgerDatabase.DeliverKeys | libraries/chain/decent_evaluator.cpp:598-651 | the answer is noted; the quorum's answer pays the authors; a late one expires the purchase |
| LedgerDatabases.LedgerDatabase.ProofOfCustody | libraries/chain/decent_evaluator.cpp:833-898 | the first proof is noted, later ones are paid from the escrow |
| LedgerDatabases.LedgerDatabase.DepositLazyVesting | libraries/chain/db_balance.cpp:82-128 | coins go to the existing vesting balance that still fits, or to a new one |
| LedgerDatabases.LedgerDatabase.UpdateSigningMiner | libraries/chain/db_update.cpp:102-139 | the miner's share of fees and the reward leave the budget for its vesting balance |
| LedgerDatabases.LedgerDatabase.Housekeeping | libraries/chain/db_decent.cpp:221-243 | every content and purchase that expired in the window is refunded, in any order that the indexes by expiration list them |
| LedgerDatabases.LedgerDatabase.GetRealSupply | libraries/chain/db_decent.cpp:395-434 | the five loops add up the tables |
| LedgerDatabases.LedgerDatabase.RollBudget | libraries/chain/db_maint.cpp:134-216 | the new supply record and budget, and whether the assertion holds |
| LedgerDatabases.LedgerDatabase.DoApply | libraries/chain/include/graphene/chain/evaluator.hpp:154-167 | what each operation's do_apply makes of the tables |
| LedgerDatabases.LedgerDatabase.Push | libraries/chain/db_block.cpp:600-686 | a transaction or block that throws at any of its events leaves no trace |
| LedgerBalances.MoveGives | libraries/chain/transfer_evaluator.cpp:56-76 | a transfer takes from the sender what it gives to the receiver, and touches no other balance |
| LedgerBalances.PayContentGives | libraries/chain/transfer_evaluator.cpp:104-140 | a transfer to a content goes to its authors by their split |
| LedgerBalances.BuyGives | libraries/chain/decent_evaluator.cpp:484-530 | the buyer is charged the price offered, or nothing with a subscription; the authors, or the escrow, have what it was converted to |
| LedgerBalances.DeliverGives | libraries/chain/decent_evaluator.cpp:598-651 | the answer that completes the quorum pays the authors once, a late one refunds the buyer once, every other moves nothing |
| LedgerBalances.ProveGives | libraries/chain/decent_evaluator.cpp:833-898 | the seeder has exactly what the escrow has lost; a first proof earns nothing |
| LedgerBalances.ExpireBuyingGives | libraries/chain/db_decent.cpp:43-58 | the buyer gets the escrow, which is then empty |
| LedgerBalances.ExpireContentGives | libraries/chain/db_decent.cpp:60-77 | the author gets the rest of the escrow; account 20 covers an overdrawn one |
| LedgerBalances.SubmitGives | libraries/chain/decent_evaluator.cpp:309-368 | the author pays the publishing fee into the new content's escrow |
| LedgerBalances.VestGives | libraries/chain/vesting_balance_evaluator.cpp:81-100 | the creator's coins are in the owner's vesting balance |
| LedgerBalances.WithdrawGives | libraries/chain/vesting_balance_evaluator.cpp:117-137 | the owner gets what leaves the vesting balance |
| SeederRewards.SplittingNeverPays | libraries/chain/decent_evaluator.cpp:861-879 | within a day, any number of proofs earns at most what a single one at the end does, through all the integer divisions |
| SeederRewards.RewardRate | libraries/chain/decent_evaluator.cpp:861-879 | a proof never earns more than the price of the time that passed |
| SeederRewards.FeeCoversAllProofs | libraries/chain/decent_evaluator.cpp:244-256 | at fixed prices the fee checked at submission pays for all proofs until expiration, except for a last part of a day |
| SeederRewards.PaymentsAndRefund | libraries/chain/decent_evaluator.cpp:880-889 | payments and the refund add up to the publishing fee; above block 404727 the escrow stays nonnegative |
| SeederRewards.NonnegativeExactly | libraries/chain/decent_evaluator.cpp:880-889 | a payment leaves a nonnegative escrow exactly when it is capped or small enough |
| SeederRewards.OverdrawnBeforeCap | libraries/chain/decent_evaluator.cpp:874-889 | at lower blocks a raised price overdraws the escrow |
| Budgets.NextMaintenanceIsFirst | libraries/chain/db_maint.cpp:302-327 | the next maintenance is the first of its sequence after the block, at most an interval away |
| Budgets.SharesSufficeExactly | libraries/chain/db_update.cpp:108-118 | the blocks between two maintenances never outnumber the shares exactly when the next one is slot-aligned or lies further into its slot than the last |
| Budgets.UnspentNeverNegative | libraries/chain/db_update.cpp:102-130 | over every run of blocks from genesis on, the unspent fee budget is never negative |
| VestingSpec.TwoSteps | libraries/chain/vesting_balance_object.cpp:90-109 | accrual in two steps is accrual in one |
| VestingSpec.CoinDaysAsserts | libraries/chain/vesting_balance_object.cpp:111-158 | while coin-seconds do not exceed what frees the balance, no assertion of a withdrawal fires |
| VestingSpec.StepStaysOpen | libraries/chain/vesting_balance_object.cpp:121-142 | deposits, vested deposits and allowed withdrawals keep that bound |
| VestingSpec.RunIsSafe | libraries/chain/vesting_balance_object.cpp:90-158 | over every run: the bound, all assertions, conservation of coins, and withdrawals paid for by coin-seconds accrued or granted |
| VestingSpec.VestedMonotone | libraries/chain/vesting_balance_object.cpp:41-56 | a linear balance never un-vests |
| VestingSpec.LinearRunExactly | libraries/chain/vesting_balance_object.cpp:37-88 | over every run of deposits and withdrawals of a linear balance, the assertions past the cliff hold exactly when no more was added than withdrawn; coins are conserved either way |
| VestingSpec.LinearRunIsSafe | libraries/chain/vesting_balance_object.cpp:37-88 | in every run without deposits, as documented, no assertion fires and no more is gone than has vested |
| VestingSpec.LinearDepositExactly | libraries/chain/vesting_balance_object.cpp:74-78 | a deposit at any time, which the code allows, breaks the assertions of a withdrawal at any later time past the cliff exactly when it is more than was withdrawn |
| VestingBalances.VestingBalance.Deposit | libraries/chain/vesting_balance_object.cpp:207-212 | coin-seconds are brought up to date before the balance grows |
| VestingBalances.VestingBalance.DepositVested | libraries/chain/vesting_balance_object.cpp:214-219 | vested coins bring their coin-seconds along; a linear balance throws |
| VestingBalances.VestingBalance.Withdraw | libraries/chain/vesting_balance_object.cpp:198-232 | a withdrawal is done exactly when it is allowed; the assertions of a coin-days balance then hold |
| Synopses.SummarisedIsChain | libraries/app/application.cpp:800-877 | what is summarised, on the main chain or a fork, is a linked chain that reaches the first position |
| Synopses.GetBlockchainSynopsis | libraries/app/application.cpp:793-911 | the ids at the positions of that chain, or the error |
| Synopses.SynopsisShape | libraries/app/application.cpp:883-906 | without trailing ids: starts at the low block, goes up strictly, ends at the last block, and has one id more than the binary logarithm of the span |
| Synopses.LengthBound | libraries/app/application.cpp:886-906 | with trailing ids it is at most that long for the whole span |
| Synopses.GapBound | libraries/app/application.cpp:886-906 | the last position at or below a block is at most twice as far from the end as the block |
| Synopses.GetBlockIds | libraries/app/application.cpp:664-709 | consecutive ids from the last recognised one on, at most limit of them, and how many remain |
| Synopses.AskAndAnswer | libraries/app/application.cpp:664-911 | two nodes: the lookup throws exactly when the answering node knows a position of the synopsis beyond its own head and finds it before a shared one; otherwise the fork is unreachable exactly when the first position is not shared, and if it is, the answer starts at a shared block within the gap bound |
| MinerSchedules.SlotInverse | libraries/chain/db_miner_schedule.cpp:42-78 | the slot at a slot's time is the slot |
| MinerSchedules.SlotAtExactly | libraries/chain/db_miner_schedule.cpp:42-78 | a time is in a slot exactly from the slot's time on and before the next one's |
| MinerSchedules.SlotsShift | libraries/chain/db_update.cpp:43-87 | after a block the slots are those that followed it before; a maintenance block skips some |
| MinerSchedules.ScheduleStableForRun | libraries/chain/db_miner_schedule.cpp:34-78 | until a reshuffle or maintenance, no number of blocks changes whose turn it is in the slots to come |
| MinerSchedules.UnalignedGenesis | libraries/chain/db_miner_schedule.cpp:50-58 | for the first block, a maintenance block in the node, this holds exactly when the genesis time is a multiple of the interval |
| MinerSchedules.Shuffled | libraries/chain/db_miner_schedule.cpp:97-117 | the swaps give a permutation, whatever the random numbers |
| MinerSchedules.MinerSchedule.UpdateMinerSchedule | libraries/chain/db_miner_schedule.cpp:86-119 | in place, and only when the round of blocks is full |
| MinerSchedules.EachMinerOnce | libraries/chain/db_miner_schedule.cpp:34-40 | in as many consecutive absolute slots as there are miners each has exactly one |
| Irreversibility.NthElement | libraries/chain/db_update.cpp:168-172 | the element at the offset is the order statistic, and the elements are kept |
| Irreversibility.Offset | libraries/chain/db_update.cpp:166 | the offset is in range for any number of miners |
| Irreversibility.NthUnique | libraries/chain/db_update.cpp:168-174 | the order statistic is unique |
| Irreversibility.NthMeetsThresholdExactly | libraries/chain/db_update.cpp:160-174 | a block number is confirmed by the threshold fraction exactly when it is at most the order statistic |
| Irreversibility.AdvanceExactly | libraries/chain/db_update.cpp:141-183 | an advance goes to the last number the threshold fraction has confirmed |
| Irreversibility.NeverGoesBack | libraries/chain/db_update.cpp:141-183 | over every run the last irreversible block never goes back and never passes the head |
| Irreversibility.Chain.UpdateLastIrreversibleBlock | libraries/chain/db_update.cpp:141-183 | the new number, for both settings of the skip flag |
| AccountIndexes.AccountMemberIndex.ObjectInserted | libraries/chain/account_object.cpp:73-85 | both maps agree with a scan of the accounts with the new one |
| AccountIndexes.AccountMemberIndex.ObjectRemoved | libraries/chain/account_object.cpp:87-99 | both maps agree with a scan of the accounts without it |
| AccountIndexes.AccountMemberIndex.ObjectModified | libraries/chain/account_object.cpp:101-155 | both maps agree with a scan of the accounts with the change |
| AccountIndexes.ModifyAgrees | libraries/chain/account_object.cpp:111-155 | touching only members that came or went is enough |
| AccountIndexes.Replay | libraries/chain/account_object.cpp:52-155 | after any history of accounts both maps agree with a full scan, a missing entry being empty |
| AmountTexts.PaddedDigits | libraries/chain/asset_object.cpp:166-169 | the fraction is printed with exactly as many digits as the precision |
| AmountTexts.RoundTrip | libraries/chain/asset_object.cpp:98-171 | every amount from 0 to the maximum supply, printed in any precision, is parsed back |
| AmountTexts.RoundTripExactly | libraries/chain/asset_object.cpp:98-171 | of all amounts up to the maximum supply, of either sign, those are parsed back that are not negative or have no fraction |
| AmountTexts.Stripped | libraries/chain/asset_object.cpp:36-46 | zeros at the end of a fraction are cut and nothing else |
| AmountTexts.PrintAmount | libraries/chain/asset_object.cpp:159-171 | whole part, and fraction if there is one |
| AmountTexts.ParseAmount | libraries/chain/asset_object.cpp:98-157 | the scan, the two parts, the range checks and the sign, for any text |

## Left out

- Block and transaction contents, signatures, authorities, checkpoints and hashes: a block id is a structural, injective hash; applying a block or a transaction is an arbitrary deterministic list of changes that is then accepted or refused.
- Sessions nested inside the application of a block: the flat list of changes stands for their net effect, which the undo theorems give for any nesting.
- Uniqueness constraints of the object indexes, and listeners that are told of changes.
- The destructors of sessions: undoing is called where the destructor would call it.
- The fork database's head after a switch, and the block log on the restore path, which stores blocks under the wrong id: no claim is made about them.
- The never-filled index of unlinked blocks and the never-set flag of invalid blocks in the fork database.
- ChainStuck.SwitchStuckExactly: asks that the undo history reaches down to the fork, and that the size limits of accepted new blocks keep those applied before them undoable, as they do when the last irreversible block is not after the fork; without either, popping can also run out of history.
- ChainStuck.PushStuckExactly: asks the same of the switch that the push leads to.
- Undo trimming that drops the states of open sessions: the nesting theorems ask for a size limit of at least the number of open sessions.
- PendingTransactions.PushProposal: asks that the states on the stack lead back from the store, as an empty stack does; after changes made while undoing was disabled they do not.
- Random draws are arbitrary numbers of their range; primality of the two moduli is a parameter, and so is the generator.
- The big-integer library: a sum is reduced by one subtraction, an inverse that does not exist is 0, and an encoding into 32 or 64 bytes cuts the number.
- The pairing library and SHA-256: an abstract bilinear group of finite exponent and arbitrary functions; element encodings are taken to be lossless.
- The custody thread pool runs in order; a file is a sequence of bytes without read errors.
- CustodyReaders.ReadersAgreeExactly: about the bytes read; that a wrong number makes a proof fail is not claimed.
- Genesis transfers and special accounts beyond the one balance of the whole supply; they are runs of the modelled operations.
- In the ledger: content cancellation, ratings, subscriptions as objects, withdraw permissions and account upgrades; a transfer stands for the moves of coins that subscriptions and withdraw permissions make.
- In the ledger: the fee schedule, regional prices, the free space and statistics of seeders, delivery and custody proofs (checked elsewhere), and a vesting policy's own test, which is an input of a withdrawal.
- LedgerDatabases.LedgerDatabase.Housekeeping: takes the listing of the two indexes by expiration as an input; that the indexes are kept sorted is not modelled, and all results hold for every listing.
- Shares are unbounded integers in the ledger; the 64-bit product of a co-author's split is assumed not to overflow.
- `get_miner_budget` and the planned budget it fills in, which nothing reads back.
- VestingSpec.RunIsSafe: the 64-bit product of a vested deposit is assumed not to overflow; amounts are in the asset of the balance.
- Budgets.UnspentNeverNegative: for fixed parameters and times within 32 bits; changing the interval can leave the next maintenance unaligned, and SharesSufficeExactly then says when the shares suffice.
- The block log as a file: it holds the main chain by number and nothing else.
- Slot numbers and times are unbounded; the participation rate and the counts of missed blocks are not modelled.
- Voting and the choice of active miners: the active miners are given for each block.
- Price feeds and their medians, RPC, networking, the wallet, packages, search and listing interfaces.
