# Verified model of the execution zone's state machine

The execution zone keeps public accounts, a set of commitments and a set of nullifiers, and a set of deployed programs.
It accepts three kinds of transaction: public ones, which execute a tree of chained program calls; privacy-preserving
ones, which carry a proof; and program deployments. This project models the code that decides whether a transaction is
accepted and what it then does to the state, and proves what every accepted call, transaction, block and run keeps,
for arbitrary programs.

`dafny verify dfyconfig.toml` checks the whole project.

## How it is built

- `Types.dfy`, `Bytes.dfy`: values, errors, little-endian layouts, account identifiers that are hashes. `World` holds
  everything the zone calls but does not define (SHA-256, the program executor, signature and proof verification, image
  ids, instruction serialization). Nothing is assumed of it unless a lemma's `requires` says so.
- `Validator.dfy`: the eight rules for one execution and the two-limb balance sum.
- `Executor.dfy`: the public transaction executor. `RunWorklist` is the deque loop; `EvalCall` and `EvalCalls` are the
  recursive pre-order evaluation it is proved against.
- `CallTree.dfy`: facts about one call lifted to whole call trees, over the log of executed calls.
- `CallOrder.dfy`: which calls run and in which order, stated on the programs' outputs alone, and the exact condition for a
  public transaction to be accepted.
- `Merkle.dfy`: node values, membership proofs, completeness and soundness of the proof fold.
- `MerkleTree.dfy`: the tree as it is stored, a heap-ordered array updated in place that doubles when full.
- `Transactions.dfy`: privacy-preserving and deployment validation, application of a diff.
- `Zone.dfy`: the in-memory state objects with their in-place updates.
- `Runs.dfy`, `Commitments.dfy`: what holds over every run, from genesis for the commitment set.
- `Blocks.dfy`, `Faucet.dfy`: guarded user transactions, blocks, and what the guard means for the faucet account.
- `Clock.dfy`, `ClockCount.dfy`: the clock accounts over chains of blocks, and the exact count behind them.
- `Witnesses.dfy`: concrete executions that meet the premises of the results about unwelcome outcomes.
- `Encoding.dfy`: the hand-written codecs. `Sync.dfy`: the wallet's chunked, resumable block synchronization.

Specification functions describe states as values (`Ledger`, `State`); the classes and methods that update things in
place are proved against them.

## Findings

- Claimed-at-first-change needs no assumption about the all-zero program id: if a program with that id were deployed and
  claimed an account, the final check of the same transaction would reject it.
- `UnclaimedSignerIsStranded`: a key that signs an accepted public transaction while its own account stays default-owned
  makes that account unusable in every later public transaction, because its nonce makes it differ from the default
  account and rule 7 then rejects every output containing it (`StrandedIsNeverTouched`). `LeftDefaultOwnedIff` says when
  that happens, and `SignerLeftUnclaimed` gives such a transaction for every key.
- `PollingEndsIff`: the wallet's polling loop does not end for a range that ends at the largest block id, nor for a chunk
  size of zero unless the range is empty or is block 0 alone. `SyncToBlock` is specified outside those cases.
- `ExtendInverse` and `GenesisConsistent`: the commitment index is the inverse of the log if and only if all logged
  commitments differ; genesis does not check this of its initial commitments.
- `HeaderCanonical`: header decoding ignores the padding of the shorter kind, so decoding is injective only on headers
  with zero padding.
- Authorization is handed to callees from the pre-states a call was given, while the check is made on the pre-states its
  program reports. So authority does not always come from a signer or an ancestor's PDA: `ForgedAuthority` gives, for
  every account, an accepted transaction that nobody signed, grants no PDA and has a call reporting that account as
  authorized. `RightfulIffNothingForged` is the exact condition: it fails exactly when some call hands on an account it
  was given as authorized although its caller had no authority over it. That can be checked on a call's pre-states before
  the call runs, and programs that echo their pre-states meet it (`EchoIsNotForged`).
- `NullifierUnderTwoDigests`: the duplicate check on nullifiers compares pairs of nullifier and digest, so one transaction
  may list a nullifier twice. `NullifiersOnceIff` says exactly when it does not.
- `GuardOnCalls`: the documentation of the guard on user transactions promises that unsafe changes of the faucet account
  are rejected, but the code looks only at the program of the first call. `FaucetBelowFirstCall` is an accepted guarded
  transaction that runs the faucet program below another one. `FaucetLoss` says what the guard does secure, given that the
  transfer program takes balance from authorized senders only.
- The user transactions of the genesis block are not guarded. `ClocksFromGenesis`: the clocks keep pace with the blocks if
  and only if none of them runs the clock program. `GenesisTicksTwice` is a genesis block that applies and moves the clock
  twice.

## Model

| member | source | states |
|---|---|---|
| Types.NUniqueIsDistinct | nssa/src/validated_state_diff.rs:487-490 | the hash-set length test holds exactly for lists of pairwise different elements |
| Types.AdjacentWindows | nssa/core/src/program.rs:325-346 | a window includes its start and excludes its end, adjacent windows divide a longer one without overlap, and a missing bound does not constrain |
| Validator.FromBalances | nssa/core/src/program.rs:534-546 | the carry loop returns a value exactly when the true sum is below 2^256, and then lo + hi * 2^128 is that sum |
| Validator.WrappedEquality | nssa/core/src/program.rs:522-527 | two wrapped sums are equal exactly when the integers they stand for are |
| Validator.VerdictExact | nssa/core/src/program.rs:663-755 | no rule is broken exactly when ids differ, lengths match, every pair obeys the nonce, owner, balance, data and default rules, and totals agree below 2^256 |
| Validator.PairViolationExact | nssa/core/src/program.rs:683-732 | which of the five rules is reported for a pair: the first one broken, with the right account, owner and program |
| Validator.FirstViolationAt | nssa/core/src/program.rs:683-732 | the rule reported is that of the first pair that breaks one |
| Validator.ValidateExecution | nssa/core/src/program.rs:663-755 | the loops accept exactly the well-behaved executions and otherwise report the first broken rule |
| Identity.PdaNamespaces | nssa/core/src/program.rs:126-143 | two programs or two seeds share a derived account only if their derivation inputs are a SHA-256 collision |
| Identity.PdaLayout | nssa/core/src/program.rs:126-143 | the bytes hashed are the prefix, the eight id words in little-endian digits, and the seed, in this order |
| Executor.WorklistIsPreorder | nssa/src/validated_state_diff.rs:119-287 | for every program behaviour the worklist yields the executed calls, or the rejection, of the recursive pre-order evaluation |
| Executor.RunWorklist | nssa/src/validated_state_diff.rs:119-287 | the deque loop ends with the overlay or error of the recursive evaluation and runs at most eleven programs |
| Executor.PushChildren | nssa/src/validated_state_diff.rs:274-282 | pushing the calls to the front in reverse puts them before the rest in their own order |
| CallOrder.RootExact | nssa/src/validated_state_diff.rs:82-121 | the first call is the message's own: its program, data, stored accounts marked exactly when a witness key derives them, no seeds, no caller, and the signers' authority |
| CallOrder.EvaluationExecutes | nssa/src/validated_state_diff.rs:119-287 | the log of an accepted transaction is the pre-order of the requested calls: each after its requester with that program as caller and what it received as authorized, siblings in the order requested, every requested call exactly once |
| CallOrder.SubtreeBeforeSibling | nssa/src/validated_state_diff.rs:274-282 | the whole subtree of a call runs before the next call of the same caller, and nothing else runs between |
| CallOrder.ExecutionEvaluates | nssa/src/validated_state_diff.rs:119-287 | conversely, every complete execution in pre-order of at most eleven calls, each accepted on what the one before it left, is what the evaluation returns, so there is only one |
| Executor.CheckPreStates | nssa/src/validated_state_diff.rs:148-182 | the loop reports the first pre-state that is not current or is authorized without right |
| CallTree.PreStateErrorExact | nssa/src/validated_state_diff.rs:148-182 | a pre-state passes exactly when it is the current account and, if marked, handed on by the caller or the caller's PDA under a seed of the call; otherwise which error |
| CallTree.FirstPreStateErrorAt | nssa/src/validated_state_diff.rs:153-182 | the error is that of the first pre-state that is not right |
| Executor.GrantClaims | nssa/src/validated_state_diff.rs:220-257 | in-place claim handling reports the first bad claim, or makes the executing program owner of exactly the claimed accounts |
| CallTree.ClaimErrorExact | nssa/src/validated_state_diff.rs:220-257 | a claim passes exactly when there is none, or the account is default-owned and either marked and claimed as authorized, or the program's own PDA whether marked or not; otherwise which error |
| CallTree.FirstClaimErrorAt | nssa/src/validated_state_diff.rs:220-257 | the error is that of the first claim that is not right |
| Witnesses.UnsignedPdaClaimed | nssa/src/validated_state_diff.rs:241-256 | for every seed there is an accepted unsigned transaction in which a program claims its own PDA |
| Executor.ClaimAndWrite | nssa/src/validated_state_diff.rs:220-266 | claims are granted and every account of the output is written to the overlay, or the first bad claim is reported |
| Executor.RunCall | nssa/src/validated_state_diff.rs:123-266 | one loop pass checks the output in the source's order and gives the same overlay or error as the specification |
| Executor.AnyLeftUnclaimed | nssa/src/validated_state_diff.rs:289-304 | in any iteration order, finds whether a default-owned account was modified and left unclaimed |
| Executor.CheckNonces | nssa/src/validated_state_diff.rs:72-80 | true exactly when every signer's current nonce is the one in the message |
| Executor.FromPublicTransaction | nssa/src/validated_state_diff.rs:43-313 | the whole validation equals the prechecks, the recursive evaluation of the call tree and the final claim check |
| CallOrder.PrecheckExact | nssa/src/validated_state_diff.rs:52-80 | the checks before execution pass exactly when accounts differ and every signer has a valid signature of the message and its current nonce, and otherwise name the first failing one |
| CallOrder.PublicAcceptedIff | nssa/src/validated_state_diff.rs:43-313 | a transaction is accepted with a log if and only if it is so signed, the log is a complete execution of its calls in pre-order, and no default-owned account is left changed and default-owned |
| CallTree.AcceptedLog | nssa/src/validated_state_diff.rs:119-313 | an accepted transaction has between one and eleven executed calls, each valid on the overlay before it and asked for by an earlier one, and leaves nothing unclaimed |
| CallTree.CallFacts | nssa/src/validated_state_diff.rs:130-266 | an accepted call reports itself, its true caller and current accounts, is in its windows, behaves well and has only valid claims |
| CallTree.CallAccepted | nssa/src/validated_state_diff.rs:130-266 | conversely, a returned output that meets all of this is accepted |
| CallTree.CallEffect | nssa/src/validated_state_diff.rs:259-266 | a call changes exactly the accounts it reports, each from its current value to its granted post state |
| CallTree.CallWrites | nssa/src/validated_state_diff.rs:220-266 | a reported account gets the balance, data and nonce of its post state, and the program of the call as owner exactly if claimed |
| CallTree.CallEvolves | nssa/core/src/program.rs:683-732 | over one call nonces stay, a set owner stays, other programs' accounts keep data and do not lose balance, and a default-owned account that is not default is in no output |
| CallTree.TreeKeeps | nssa/src/validated_state_diff.rs:123-287 | the same over a whole call tree: nonces, set owners, and default-owned accounts that are not default never change |
| CallTree.NonInterference | nssa/src/validated_state_diff.rs:123-287 | an account whose owner is not among the executed programs keeps owner and data and does not lose balance |
| CallTree.ClaimedAtFirstChange | nssa/src/validated_state_diff.rs:220-304 | a default-owned account that changed was the default account, the call that first changed it validly claimed it, and that program owns it at the end |
| CallTree.StaysDefaultOwnedIff | nssa/src/validated_state_diff.rs:220-304 | an account is default-owned after an accepted transaction if and only if it was before and no executed call of a program with another id claimed it |
| CallTree.TreeConserves | nssa/src/validated_state_diff.rs:158-266 | stored accounts overlaid with the diff of a call tree hold the same total balance as before |
| CallTree.PathExists | nssa/src/validated_state_diff.rs:268-282 | every executed call is reached from the root by a chain of calls each asked for by the one before |
| CallTree.Provenance | nssa/src/validated_state_diff.rs:148-282 | along every path, an account a call may use as authorized has rightful authority, so is a signer's or an ancestor's PDA granted on the path, or an ancestor was given it as authorized without right |
| CallTree.RightfulSource | nssa/src/validated_state_diff.rs:148-282 | authority granted or handed on step by step from the signers is always recognized, and ends at a signer or at a grant on the path |
| CallTree.ForgedSpreads | nssa/src/validated_state_diff.rs:268-282 | an account a call was given without right is authorized for every call it makes |
| CallTree.RightfulIffNothingForged | nssa/src/validated_state_diff.rs:148-282 | in an accepted transaction authority is rightful throughout the call tree if and only if no call hands on an account it was given without right |
| CallTree.AuthorizationProvenance | nssa/src/validated_state_diff.rs:148-282 | if no ancestor was given the account without right, an account a call reports as authorized is a signer's or a PDA of a proper ancestor under a seed put in a call of the path |
| CallTree.EchoIsNotForged | nssa/core/src/program.rs:431-432 | an accepted call that reports the pre-states it was given was given none without right |
| Witnesses.ForgedAuthority | nssa/src/validated_state_diff.rs:268-282 | for every account there is an accepted unsigned transaction with no PDA grant in which a call reports it as authorized |
| Merkle.ComputeDigestForPath | nssa/core/src/commitment.rs:87-111 | the loop computes the fold of the commitment's leaf hash with the path |
| Merkle.FoldComplete | nssa/core/src/commitment.rs:87-111 | for every depth and leaf, folding the sibling path gives the node above that leaf |
| Merkle.NodeHashes | nssa/src/merkle_tree/mod.rs:145-157 | a node hashes the bytes of its left and then its right child, a leaf those of its commitment, and an unused leaf is zero |
| Merkle.FoldSound | nssa/core/src/commitment.rs:87-111 | a path of any length that folds to the root proves the leaf at the index modulo the leaf count is that commitment and the path is the true one, or yields a concrete collision or preimage of the padding value |
| Merkle.NodeAppend | nssa/src/merkle_tree/mod.rs:91-116 | appending a leaf changes only the nodes above it |
| MerkleTrees.FilledWithDefaults | nssa/src/merkle_tree/mod.rs:20-31 | the initial array holds at every slot the default value of the slot's level |
| MerkleTrees.MoveNodes | nssa/src/merkle_tree/mod.rs:80-84 | the copy loop moves every node to the slot of the same level and offset in the doubled array and touches nothing else |
| MerkleTrees.Rehash | nssa/src/merkle_tree/mod.rs:105-113 | recomputing the ancestors of a new leaf up to the current depth makes the whole array represent the extended leaf list |
| MerkleTrees.Climb | nssa/src/merkle_tree/mod.rs:124-142 | walking parent slots up to the root slot collects exactly the true sibling path |
| MerkleTrees.RootIndex | nssa/src/merkle_tree/mod.rs:45-56 | the root slot is the leftmost slot of the level that is the depth of the current length |
| MerkleTrees.MerkleTree.WithCapacity | nssa/src/merkle_tree/mod.rs:20-38 | a new tree represents the empty leaf list with the next power of two as capacity |
| MerkleTrees.MerkleTree.Root | nssa/src/merkle_tree/mod.rs:40-43 | the stored root is the root over all inserted values |
| MerkleTrees.MerkleTree.ReallocateToDoubleCapacity | nssa/src/merkle_tree/mod.rs:72-89 | doubling keeps the represented leaves |
| MerkleTrees.MerkleTree.Insert | nssa/src/merkle_tree/mod.rs:91-116 | inserting returns the next position and the tree then represents the old leaves followed by the new one |
| MerkleTrees.MerkleTree.GetAuthenticationPathFor | nssa/src/merkle_tree/mod.rs:118-143 | gives the true sibling path of an existing leaf and nothing for any other index |
| Transactions.PrivateAcceptedIff | nssa/src/validated_state_diff.rs:315-406 | acceptance is exactly the conjunction of all checks: non-empty, no duplicate accounts, commitments or pairs of nullifier and digest, a valid signature and the current nonce for every signer, windows, a valid proof of the public values, new commitments, unspent nullifiers with recognized digests |
| Transactions.OutputExact | nssa/src/validated_state_diff.rs:462-485 | the proof is checked against exactly the post states, ciphertexts, commitments, nullifier pairs and windows of the message and the stored accounts it names, marked exactly when a witness key derives them |
| Transactions.PrivateDiffExact | nssa/src/validated_state_diff.rs:408-427 | the diff writes exactly the named accounts with their post states, all commitments in order, and every nullifier |
| Transactions.NullifiersOnceIff | nssa/src/validated_state_diff.rs:315-427 | an accepted transaction spends each of its nullifiers once if and only if it gives none under two digests |
| Witnesses.NullifierUnderTwoDigests | nssa/src/validated_state_diff.rs:315-427 | for every nullifier and two digests there is an accepted transaction that lists the nullifier twice |
| Transactions.FromPrivacyPreservingTransaction | nssa/src/validated_state_diff.rs:315-428 | the checks run in the source's order with the same first error or the same diff |
| Transactions.CheckCommitmentsAreNew | nssa/src/state.rs:308-320 | fails exactly when some commitment is already indexed |
| Transactions.CheckNullifiersAreValid | nssa/src/state.rs:322-337 | passes exactly when every nullifier is unspent and every digest recognized, else reports the first failure |
| Transactions.OrderIndependent | nssa/src/state.rs:223-248 | every enumeration of the diff and every permutation of the signers gives the same state or aborts alike |
| Transactions.DeploymentAcceptedIff | nssa/src/validated_state_diff.rs:430-446 | a deployment is accepted exactly when its bytecode is a program whose id is not deployed |
| Transactions.TransitionIff | nssa/src/state.rs:250-280 | a transition is made exactly when validation succeeds and every nonce and the tree of at most 2^31 leaves have room; without room it aborts |
| Zone.CommitmentSet.WithCapacity | nssa/src/state.rs:66-72 | a new set is empty, with no recognized root |
| Zone.CommitmentSet.Extend | nssa/src/state.rs:51-57 | commitments are appended and indexed at consecutive positions and the root over all of them is recorded |
| Zone.CommitmentSet.GetProofFor | nssa/src/state.rs:42-48 | returns the position and true sibling path of an indexed commitment and nothing otherwise |
| Zone.V03State.NewWithGenesisAccounts | nssa/src/state.rs:147-217 | the constructed object stands for the genesis state |
| Genesis.GenesisHoldings | nssa/src/state.rs:147-177 | genesis funds each listed account with its last listed balance, gives the faucet the largest balance, has no other account but the clocks, and has spent exactly the listed nullifiers |
| Genesis.GenesisPrograms | nssa/src/state.rs:184-193 | genesis deploys exactly the built-in programs, a later one in place of an earlier one with the same id |
| Zone.V03State.WriteAccounts | nssa/src/state.rs:235-237 | writing the diff in any order gives the stored accounts overridden by the diff |
| Zone.V03State.BumpNonces | nssa/src/state.rs:238-242 | each signer's nonce rises by its number of occurrences, and it fails exactly when some nonce has no room for that |
| Zone.V03State.ApplyStateDiff | nssa/src/state.rs:223-248 | the object reaches the specified next state, and crashes exactly when a nonce or the tree is exhausted |
| Zone.V03State.TransitionFrom | nssa/src/state.rs:250-280 | an accepted transaction moves the object to the specified state; a rejected one leaves it as it was |
| Runs.PublicStep | nssa/src/state.rs:250-259 | an accepted public transaction comes from a valid call log, only its overlay and the signers' nonces reach the accounts, and commitments, nullifiers and programs stay |
| Runs.PrivateStep | nssa/src/state.rs:235-242 | an accepted privacy-preserving transaction gives each account it names its post state, raises signers' nonces on top, and leaves other accounts alone |
| Runs.PrivateStepRecords | nssa/src/state.rs:243-247 | it appends its commitments in order, spends exactly its nullifiers and deploys nothing |
| Runs.SupplyConserved | nssa/src/state.rs:223-248 | over every run of public and deployment transactions the sum of all public balances never changes |
| Runs.AccountsOverRuns | nssa/src/state.rs:250-280 | over such runs nonces count accepted signatures, set owners are permanent, and default-owned accounts that are not default keep owner, balance and data |
| Runs.UnclaimedSignerIsStranded | nssa/core/src/program.rs:723-731 | a signer whose account is left default-owned can never get an owner, balance or data in later public transactions |
| Runs.StrandedIsNeverTouched | nssa/core/src/program.rs:723-731 | no call of any later accepted public transaction reports such an account |
| Runs.LeftDefaultOwnedIff | nssa/src/validated_state_diff.rs:220-304 | a public transaction leaves an account default-owned in the next state if and only if it was so before and no executed call of a program with another id claimed it |
| Witnesses.SignerLeftUnclaimed | nssa/src/state.rs:238-242 | every unused key can sign an accepted transaction that leaves its account default-owned with nonce 1 |
| Runs.NonceAccounting | nssa/core/src/account.rs:20-26 | over runs of every kind each nonce is the initial one plus the accepted signatures, if privacy-preserving diffs keep nonces |
| Runs.RunGrows | nssa/src/state.rs:243-247 | commitments, root history, nullifiers and programs only grow, and a deployed program never changes |
| Runs.NoDoubleSpend | nssa/src/state.rs:308-337 | once a privacy-preserving transaction is accepted, any other sharing a nullifier with it under any digest, or a commitment, is rejected in every later state |
| Runs.PrivateAcceptedOnce | nssa/src/validated_state_diff.rs:402-406 | a privacy-preserving transaction accepted once is rejected in every later state |
| Runs.DeploymentAcceptedOnce | nssa/src/validated_state_diff.rs:435-438 | a deployment accepted once is rejected as already existing in every later state |
| Runs.PublicAcceptedOnce | nssa/src/validated_state_diff.rs:72-80 | a signed public transaction accepted once is rejected for its nonce in every later state, if privacy-preserving diffs keep nonces |
| Commitments.ExtendInverse | nssa/src/state.rs:51-57 | extending keeps the index an exact inverse of the log if and only if all logged commitments differ |
| Commitments.GenesisConsistent | nssa/src/state.rs:169-176 | genesis is consistent if and only if its commitments differ from each other and from the dummy one |
| Commitments.RunConsistent | nssa/src/state.rs:243-244 | every run keeps index and log inverse, the current root recognized, and every recognized root that of an earlier log |
| Commitments.ProofsStayRecognized | nssa/src/state.rs:41-48 | in every state reachable from a proper genesis a proof exists exactly for logged commitments, and its digest passes the root-history test in every later state |
| Commitments.RecognizedProofIsLogged | nssa/src/state.rs:322-337 | a proof of any shape whose digest is recognized is about a logged commitment at its indexed position, or yields a collision or preimage |
| Blocks.GuardOnCalls | common/src/transaction.rs:76-115 | of the acceptable public transactions the guard turns away exactly those whose first call runs the faucet program or that change a clock account, and every faucet call it lets through was asked for by another program |
| Witnesses.FaucetBelowFirstCall | common/src/transaction.rs:82-88 | there is an accepted guarded transaction whose second call runs the faucet program |
| Faucet.LossNeedsAuthority | program_methods/guest/src/bin/authenticated_transfer.rs:23-59 | if the transfer program lowers authorized accounts only, an account it owns loses balance only on a path where it is a signer's, an ancestor's granted PDA, or was given to an ancestor without right |
| Faucet.FaucetLoss | common/src/transaction.rs:69-115 | in an accepted guarded transaction the faucet account loses balance only if the faucet program, called by another, granted its seed on the path, an ancestor was given the account without right, or its derivation collides with one the transaction uses |
| Blocks.CheckTouchesClock | common/src/transaction.rs:102-107 | true exactly when the diff changes one of the three clock accounts |
| Blocks.ExecuteCheckOnState | common/src/transaction.rs:119-130 | applies an accepted transaction in place and leaves the state alone otherwise |
| Blocks.ClockIsolation | indexer/core/src/block_store.rs:153-180 | in an applied block after genesis no user transaction changes owner, balance or data of a clock account |
| Blocks.BlockIsRun | indexer/core/src/block_store.rs:137-191 | an applied block is the run of its transactions, every one of them accepted in its turn |
| Blocks.BlockAppliesIff | indexer/core/src/block_store.rs:137-191 | a block applies exactly when it ends with the clock invocation for its timestamp, each user transaction in turn is acceptable and, after genesis, validly signed, not a faucet call and harmless to the clocks, and the clock invocation is acceptable |
| Blocks.UserTxsStop | indexer/core/src/block_store.rs:153-180 | user transactions stop at the first that does not apply, in the state it found |
| Blocks.PutBlock | indexer/core/src/block_store.rs:137-199 | applies a block in place, stops at the first failure keeping what was applied, and returns the finalized block on success |
| Clock.AvoidingKeepsClock | nssa/src/state.rs:197-217 | a public transaction none of whose calls runs the clock program changes neither data nor owner of any clock account |
| ClockCount.TransactionCounts | program_methods/guest/src/bin/clock.rs:39-94 | an accepted public transaction advances the first clock by exactly the number of its calls of the clock program |
| ClockCount.ClockKeptIff | program_methods/guest/src/bin/clock.rs:39-94 | an accepted public transaction leaves the first clock as it was if and only if none of its calls runs the clock program |
| ClockCount.GenesisClockKeptIff | indexer/core/src/block_store.rs:153-180 | the user transactions of the genesis block leave the first clock as it was if and only if none of them runs the clock program |
| Clock.BlockTicks | program_methods/guest/src/bin/clock.rs:39-94 | each applied block advances the first clock by one and the others when their interval divides the new block number, the genesis block if its user transactions do not run the clock program |
| Clock.ClocksOverChains | program_methods/guest/src/bin/clock.rs:20-94 | over any chain of applied blocks from a state whose clocks are right, each clock shows the last block that is a multiple of its interval, with that block's time |
| ClockCount.ChainCounts | indexer/core/src/block_store.rs:137-191 | over a chain of applied blocks the first clock advances by the number of blocks plus the calls of the clock program in user transactions of the genesis block |
| ClockCount.ClocksRightIff | indexer/core/src/block_store.rs:137-191 | from a state whose clocks are right, they are right after a chain of applied blocks if and only if no user transaction of a genesis block runs the clock program |
| ClockCount.ClocksFromGenesis | indexer/core/src/block_store.rs:137-191 | the same from the genesis state, the genesis block included, with each clock showing the last multiple of its interval and that block's time |
| Witnesses.GenesisTicksTwice | indexer/core/src/block_store.rs:153-180 | for every pair of times there is a genesis block that applies to the genesis state and moves the first clock to block 2 |
| Clock.GenesisClockwork | nssa/src/state.rs:184-217 | at genesis every clock shows block 0 with the genesis time, if no other built-in program shares the clock program's id |
| Encoding.AccountExact | nssa/core/src/encoding.rs:19-68 | bytes decode to an account and a rest exactly when they are that account's encoding followed by that rest |
| Encoding.AccountLayout | nssa/core/src/encoding.rs:22-33 | the encoding is the owner words, balance, nonce and data length in little-endian digits, then the data, in this order |
| Encoding.AccountToBytes | nssa/core/src/encoding.rs:22-33 | the loop emits owner words, balance, nonce, length and data |
| Encoding.AccountFromCursor | nssa/core/src/encoding.rs:37-67 | reads the account the bytes decode to and leaves the cursor after it, or fails exactly when they do not decode |
| Encoding.CiphertextExact | nssa/core/src/encoding.rs:119-158 | bytes decode to a ciphertext and a rest exactly when they are its encoding followed by that rest |
| Encoding.CiphertextLayout | nssa/core/src/encoding.rs:122-130 | the encoding is the length in four little-endian digits, then the bytes |
| Encoding.CiphertextFromCursor | nssa/core/src/encoding.rs:146-157 | reads the ciphertext the bytes decode to and leaves the cursor after it |
| Encoding.HeaderRoundTrip | nssa/core/src/program.rs:108-120 | every private-account kind survives its 81-byte header |
| Encoding.KindLayout | nssa/core/src/program.rs:89-98 | a kind is its tag, for a PDA the program id words and the seed, then the identifier in little-endian digits |
| Encoding.HeaderCanonical | nssa/core/src/program.rs:108-120 | a header that decodes is the canonical one exactly when its padding is zero |
| Encoding.ToHeaderBytes | nssa/core/src/program.rs:109-114 | copying into the zeroed buffer yields the padded header |
| Sync.PollingEndsIff | wallet/src/poller.rs:66-87 | the polling loop ends exactly when the range stops below the largest id and the chunk size is positive, or the range is empty or block 0 alone |
| Sync.ChunksPartition | wallet/src/poller.rs:66-87 | the chunks cover the range in order, once, all but the last with exactly the configured number of blocks and the last with no more |
| Sync.ExactlyOnce | wallet/src/lib.rs:620-658 | over any sequence of calls with failures anywhere between blocks, each block is applied exactly once, in order, and no successful call misses its target |
| Sync.Wallet.ApplyChunk | wallet/src/lib.rs:641-651 | applies a chunk in order and stops after the first block that could not be persisted, and only then |
| Sync.Wallet.SyncToBlock | wallet/src/lib.rs:620-658 | a call applies exactly the blocks after the last synced one up to the one it records, with one request per chunk, reaches its target if it succeeds, and fails only at a block that was not persisted or a request that was not answered |

## Left out

- Program execution, proving and image ids: foreign code, taken as arbitrary functions of `World`.
- The privacy circuit: proof validity is an arbitrary predicate; that accepted private diffs keep nonces is an explicit premise where it is used.
- Conservation across private accounts: it rests on the circuit.
- Signature, hash and encryption algorithms: arbitrary functions; only preimage layouts are modelled.
- Error texts and the account named by the unclaimed-account error: which account it names depends on hash-map order.
- Default node values: the table of 32 constants is taken to be the iterated hash of the zero value.
- MerkleTrees.MerkleTree.WithCapacity: requires a capacity of at most 2^31, for the reason given for the insertion below.
- MerkleTrees.MerkleTree.Insert: requires fewer than 2^31 leaves, since the table of default values ends there and the source panics beyond it.
- Zone.CommitmentSet.Extend: requires room below the same limit; the state object reports the overflow as a crash.
- Zone.V03State.NewWithGenesisAccounts: requires the initial commitments to stay below the same limit.
- Clock.ClocksOverChains: takes the clock program's behaviour from its source as a premise, and that no user transaction of the unguarded genesis block runs it, which `ClocksRightIff` shows to be the exact condition.
- Faucet.FaucetLoss: takes from the transfer program's source, as a premise, that it lowers authorized accounts only; it speaks of public transactions.
- Sync.Wallet.SyncToBlock: requires the condition under which `PollingEndsIff` says polling ends, and does not model a process restart between advancing the in-memory block number and persisting it.
- Storage, breakpoints and recalculation of past states: database code.
- Token, exchange, vault, faucet and other guest programs; the mempool; the approval library: separate or short state machines.
- Command line, foreign-function layers, remote interfaces, explorer, configuration: input and output.
- Derived serializers: library code.
