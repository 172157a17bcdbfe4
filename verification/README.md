# Verified model of the multi-distributor

This project models a Merkle-tree token distributor and proves that its parts fit together: the tree
that the command line builds, the proof check that the on-chain program makes, the money that the
program moves over any sequence of instructions, and the figures that the API shows.

| file | what it holds |
|---|---|
| `Bytes.dfy`, `Sums.dfy`, `Ordering.dfy` | machine integers, byte orders, sums and reorderings |
| `MerkleTree.dfy` | the flat-vector tree and its path finder, refined to a recursive tree |
| `MerkleVerify.dfy` | the sorted-pair verifier: completeness and soundness |
| `AirdropTree.dfy` | combining rows, building and validating an airdrop tree |
| `Vesting.dfy` | on-chain vesting arithmetic with its widths, the API's copy, and the exact schedule |
| `Distributor.dfy` | every instruction as a function from accounts to accounts or an error; runs |
| `Program.dfy` | the instruction handlers as they update accounts step by step, with rollback |
| `Invariants.dfy` | books, supply and structure kept by every step; exact success conditions |
| `Refusals.dfy` | every error an instruction returns is true of the state |
| `Runs.dfy` | surplus, re-root snapshots, clawback, vesting and supply over whole runs |
| `Honest.dfy` | runs on published trees: every honest claim goes through; quote equals payout |
| `Funding.dfy` | topping up vaults from tree files, also after re-roots |
| `Cache.dfy` | the API's claim-status cache against the chain's history, for every interleaving of polls and updates |
| `Aggregate.dfy`, `Sharding.dfy` | from per-market files to merged rows to trees |
| `EndToEnd.dfy` | from a raw row of a market file to its payment on the chain; paying out a whole tree file |
| `Counterexamples.dfy` | failing inputs, each run from a distributor that the program itself creates |

How the model reads the program:

- SHA-256 is a parameter: any function from byte strings to 32 bytes. Nothing is assumed about it.
  Soundness results return a concrete pair of colliding inputs in the case where they do not hold.
- A state holds one distributor, its claim statuses, and all token accounts of its mint. A failed
  instruction changes nothing. The distributor's and the burner's addresses are program-derived, so
  they never sign. Creating claim statuses a second time fails; closing them always panics. The fixed
  admin and mint addresses are given as the 32 bytes that their base58 strings stand for.
- The order in which account constraints are checked is not observable beyond which error is
  returned first. Release builds check integer overflow, so an overflow is a panic, that is, a failure.
- Timestamps are arbitrary i64 values. Where the code needs more (a vesting window that fits i64),
  the results say so as an exact condition.
- Base58 parsing is a parameter. The results that need different strings to be different keys
  (one leaf per claimant, and what follows from it) assume exactly that.

Properties that turned out not to hold, with the failing input and the exact condition under which
they do:

- Claims can be computed in every open window: false. `new_distributor` accepts a start so far in
  the past that the window exceeds i64, and the distributor then refuses its leaf until the window
  closes (`NegativeStartBreaksClaims`); a claim fails on arithmetic exactly when such a window is open
  (`UnlockedAmountExact`, `UnlockedClaimedExact`).
- Clawback empties the vault: false when the receiver is the vault itself, which `new_distributor`
  accepts; the balance then stays there for good (`ClawbackToVaultStrands`). Clawback empties the
  vault exactly when the receiver is another account (`ClawbackDrains`).
- Paid plus forgone stays under the cap: false for a cap below the tree's total
  (`CapBelowTreeIsOvershot`). Every run on trees within the cap keeps it (`HonestRunsRespectCap`): this
  run-level sufficient condition is the result. `WithdrawalKeepsCapIff` is bookkeeping for one step.
- A second funding pass with the same tree file transfers nothing: false after a re-root, when it
  puts the burned cut back (`OldFileRefundsCut`). Before clawback it transfers exactly what re-roots
  have burned beyond surplus and deposits, so nothing exactly when those cover the burns
  (`SameFileRefundsBurns`). With a file of the cap in force it transfers nothing once funded
  (`FundingIsIdempotent`).
- Aggregation does not depend on input order: false for two files of one mint with equal indices and
  different symbols (`EqualIndicesShowOrder`); true exactly when the lowest-index markets of every
  mint carry one symbol (`OrderIndependentIff`).
- The cache never goes back: false for a stale poll after an update (`StalePollSetsBack`), and false
  for a late update after a fresh poll, since a polled entry has slot 0 and accepts every update
  (`LateUpdateSetsBackPoll`). One poll agrees exactly when it is not older than all that was seen or
  says the same (`PollAgreesIff`), one update on a polled entry exactly when it is not older than the
  poll or says the same (`UpdateAfterPollAgreesIff`), and a whole interleaving exactly when each
  observation in it is harmless in this sense (`CacheAgreesIff`, `CacheAgreesWithChain`).

Where comments and code disagree, the code is followed: `new_distributor` checks that the end and
the clawback date lie in the future, not the start; `new_claim` transfers the claimed part, not the
whole unlocked amount; `AirdropMerkleTree::new` sums locked amounts too, contrary to a comment in
the aggregation command.

## Model

| member | source | states |
|---|---|---|
| `Bytes.LexLeIff` | verify/src/lib.rs:13-18 | the byte-string comparison is the order by the first differing byte, a prefix first |
| `Bytes.LittleEndianReadsBack` | merkle-tree/src/tree_node.rs:27-33 | the little-endian bytes of a number spell it, byte i counting 256 to the i |
| `MerkleTree.New` | merkle-tree/src/merkle_tree.rs:111-161 | the loops lay out exactly the levels of sorted or unsorted pair hashes, bottom up, last node of an odd level paired with itself |
| `MerkleTree.PushLevel` | merkle-tree/src/merkle_tree.rs:129-153 | the inner loop appends the parent of every pair of the level below |
| `MerkleTree.FindPath` | merkle-tree/src/merkle_tree.rs:167-202 | None exactly past the last leaf; otherwise one entry per level, with the one sibling and the parent of the running index |
| `MerkleTree.WalkLevel` | merkle-tree/src/merkle_tree.rs:178-197 | one round of the walk pushes the pending entry and notes the siblings of this level |
| `MerkleTree.EntryAt` | merkle-tree/src/merkle_tree.rs:32-48 | every path entry has exactly one of the two siblings, so the constructor's assertion never fires |
| `MerkleTree.FlatHoldsLevel` | merkle-tree/src/merkle_tree.rs:124-158 | each slice of the flat vector holds the hashes of the matching level of the recursive duplicate-last tree |
| `MerkleTree.FlatTop` | merkle-tree/src/merkle_tree.rs:128-158 | the last slice is the single joined tree and ends the vector |
| `MerkleTree.RootIsTreeHash` | merkle-tree/src/merkle_tree.rs:163-165 | the root is None for no items and otherwise the hash of the recursive tree |
| `MerkleTree.TreeShape` | merkle-tree/src/merkle_tree.rs:111-161 | all leaves lie at one depth and each leaf is one of the items |
| `MerkleTree.LeavesInOrder` | merkle-tree/src/merkle_tree.rs:111-161 | from left to right the leaves are the items in their order, then repeated ones up to the next power of two |
| `MerkleTree.PathReadsTree` | merkle-tree/src/merkle_tree.rs:178-200 | entry k of a path is read off level k of the recursive tree at the index halved k times |
| `MerkleTree.PathLength` | merkle-tree/src/merkle_tree.rs:178-200 | a path has exactly one entry per level |
| `MerkleTree.PathComplete` | merkle-tree/src/merkle_tree.rs:58-71 | in an unsorted tree the path's own check accepts every leaf |
| `MerkleTree.HashInputs` | merkle-tree/src/merkle_tree.rs:7-20 | a leaf is hashed behind a 0 and a pair behind a 1; a pair's two 32-byte halves are its children, in the order given, or in a sorted tree the one whose first differing byte is smaller first |
| `MerkleTree.SortedPairCommutes` | merkle-tree/src/merkle_tree.rs:139-147 | sorted pairing does not depend on which child is left |
| `MerkleTree.CapacitySuffices` | merkle-tree/src/merkle_tree.rs:88-109 | the vector never exceeds 2n + floor(log2 n) nodes, so the reserved capacity holds even with a logarithm one too small |
| `MerkleTree.HeightIsCeilLog2` | merkle-tree/src/merkle_tree.rs:80-86 | the number of levels above n leaves is the binary logarithm rounded up |
| `MerkleTree.ProofsAreShort` | merkle-tree/src/airdrop_merkle_tree.rs:162-163 | fewer than 2^32 leaves give proofs of at most 32 hashes |
| `MerkleVerify.Verify` | verify/src/lib.rs:10-23 | accepts exactly when folding the proof over the leaf reaches the root |
| `MerkleVerify.GetProof` | merkle-tree/src/utils.rs:5-18 | the sibling hashes from leaf to root, or failure past the last leaf |
| `MerkleVerify.CollectSiblings` | merkle-tree/src/utils.rs:8-16 | each entry contributes its one sibling, in order |
| `MerkleVerify.VerifierComplete` | verify/src/lib.rs:10-23 | for every non-empty item list and index, the tree's own proof is accepted against its root and is as long as the tree is high |
| `MerkleVerify.TreeSound` | verify/src/lib.rs:10-23 | an accepted item is a leaf at the proof's depth, or the finder's two inputs collide |
| `MerkleVerify.VerifierSound` | verify/src/lib.rs:10-23 | an accepted claim, with a proof of any length, is a leaf of the tree and the proof length is the tree height, or the finder's two inputs collide |
| `MerkleVerify.NodeBytesReadBack` | merkle-tree/src/tree_node.rs:27-33 | the 48 hashed bytes of a node are the claimant, then the unlocked and the locked amount, each eight bytes that spell it with the least significant first |
| `MerkleVerify.NodeBytesInjective` | merkle-tree/src/tree_node.rs:27-33 | different claimants or amounts never encode to the same bytes |
| `MerkleVerify.StoredProofAccepted` | merkle-tree/src/airdrop_merkle_tree.rs:86-88 | every leaf is accepted with the proof stored for it |
| `AirdropTree.CombineRows` | merkle-tree/src/airdrop_merkle_tree.rs:55-77 | one node per claimant in first-appearance order holding the sums of its rows; fails only when the total exceeds u64 |
| `AirdropTree.FirstSeenInOrder` | merkle-tree/src/airdrop_merkle_tree.rs:55-77 | of two claimants in the combined list the earlier one has a row before any row of the later one |
| `AirdropTree.CombiningConserves` | merkle-tree/src/airdrop_merkle_tree.rs:55-77 | combining keeps the grand total and leaves claimants distinct |
| `AirdropTree.GetMaxTotalClaim` | merkle-tree/src/utils.rs:21-26 | the exact total, or failure exactly when it exceeds u64 |
| `AirdropTree.CountingFindsDuplicates` | merkle-tree/src/airdrop_merkle_tree.rs:179-186 | the hash set is as large as the list exactly when no claimant repeats |
| `AirdropTree.VerifyProofs` | merkle-tree/src/airdrop_merkle_tree.rs:208-237 | succeeds exactly when the stored root is the tree's root; re-verifying the proofs never fails on its own |
| `AirdropTree.Validate` | merkle-tree/src/airdrop_merkle_tree.rs:161-205 | accepts exactly the trees with matching size, distinct claimants, matching sum and matching root |
| `AirdropTree.AttachProofs` | merkle-tree/src/airdrop_merkle_tree.rs:86-88 | each node gets its own leaf's proof and nothing else changes |
| `AirdropTree.Build` | merkle-tree/src/airdrop_merkle_tree.rs:54-108 | succeeds exactly on non-empty input with total within u64 and fewer than 2^32 claimants; the result passes validation, carries all proofs, combines the rows and caps at their total |
| `Vesting.UnlockedAmountExact` | programs/merkle-distributor/src/state/claim_status.rs:71-90 | no product or cast loses bits: the result is the linear schedule rounded down, failing exactly on an open window longer than i64 |
| `Vesting.UnlockedClaimedExact` | programs/merkle-distributor/src/state/claim_status.rs:93-131 | half at once plus the vested other half, exactly; fails exactly before the start or on an over-long open window |
| `Vesting.VestedIsFloor` | programs/merkle-distributor/src/state/claim_status.rs:55-56 | the vested amount is the largest whole amount not ahead of the straight line |
| `Vesting.VestedMonotone` | programs/merkle-distributor/src/state/claim_status.rs:71-90 | vesting never decreases with time |
| `Vesting.ReleasedMonotone` | programs/merkle-distributor/src/state/claim_status.rs:93-131 | the released amount never decreases with time and never exceeds the unlocked amount |
| `Vesting.QuoteUnlockedExact` | api/src/router.rs:44-77 | at 50 percent the API's unlocked figure is the release schedule, panicking exactly on the over-long window |
| `Vesting.QuoteLockedExact` | api/src/router.rs:81-104 | the API's locked figure is the vesting schedule, panicking exactly on the over-long window |
| `Vesting.QuoteIsSchedule` | api/src/router.rs:324-344 | the summed quote is both schedules, 0 before the start and the whole total from the end on |
| `Vesting.QuoteMonotone` | api/src/router.rs:324-344 | quotes never fall over time and never exceed the leaf's total |
| `Program.Ledger.HandleNewClaim` | programs/merkle-distributor/src/instructions/new_claim.rs:84-203 | the step-by-step handler gives the instruction's new state, or its error, whatever it wrote before failing |
| `Program.Ledger.HandleClaimLocked` | programs/merkle-distributor/src/instructions/claim_locked.rs:66-146 | same for withdrawals: transfer, then status, then counter and cap check |
| `Program.Ledger.HandleSetRoot` | programs/merkle-distributor/src/instructions/set_root.rs:42-146 | same for re-roots: burn, then root, then cap |
| `Program.Ledger.HandleClawback` | programs/merkle-distributor/src/instructions/clawback.rs:49-85 | same for clawback: transfer of the balance, then the flag |
| `Program.Ledger.Transact` | programs/merkle-distributor/src/lib.rs:96-155 | one transaction: the new state on success, the untouched old state on failure |
| `Program.Ledger.TransactAll` | programs/merkle-distributor/src/lib.rs:96-155 | a whole run of transactions on the ledger, failed ones included, ends in the state the run theorems are about: books and backing kept, surplus changed by deposits only until clawback |
| `Invariants.NewClaimEffect` | programs/merkle-distributor/src/instructions/new_claim.rs:95-187 | a successful claim pays the release schedule to the claimant's account, books paid and forgone parts and creates the status, for an accepted leaf |
| `Invariants.ClaimLockedEffect` | programs/merkle-distributor/src/instructions/claim_locked.rs:73-124 | a successful withdrawal pays what has vested and was not withdrawn, which is positive |
| `Invariants.SetRootEffect` | programs/merkle-distributor/src/instructions/set_root.rs:94-146 | a successful re-root found the distributor paused, funded and as expected, and burns exactly the cut |
| `Invariants.StepEffect` | programs/merkle-distributor/src/lib.rs:96-155 | every instruction either changes nothing or has its stated effect |
| `Invariants.OnlyAdminChangesTerms` | programs/merkle-distributor/src/instructions/set_root.rs:32-33 | root, cap, pause, clawback terms and admin change only under the current admin's signature |
| `Invariants.NewClaimSucceedsIff` | programs/merkle-distributor/src/instructions/new_claim.rs:95-187 | the exact conditions under which a new claim succeeds |
| `Invariants.SetRootSucceedsIff` | programs/merkle-distributor/src/instructions/set_root.rs:106-146 | the exact conditions of a re-root, for the two DFX mints only; its subtractions and burn never fail on their own |
| `Invariants.NewDistributorSucceedsIff` | programs/merkle-distributor/src/instructions/new_distributor.rs:54-118 | exactly the fixed admin, with the accounts in place, can create, and the four timestamp checks amount to start before end, end in the future, and clawback a day after the end |
| `Invariants.SetClawbackStartTsSucceedsIff` | programs/merkle-distributor/src/instructions/set_clawback_start_ts.rs:47-66 | the exact conditions for moving the clawback date |
| `Invariants.SettingsSucceedIff` | programs/merkle-distributor/src/instructions/set_enable_slot.rs:9-26 | pausing and resuming always succeed for the admin; a new receiver must exist and differ, a new admin must differ |
| `Invariants.NewDistributorStores` | programs/merkle-distributor/src/instructions/new_distributor.rs:120-138 | for all arguments every field of a new distributor is its parameter and the counters are 0 |
| `Invariants.NewDistributorInv` | programs/merkle-distributor/src/instructions/new_distributor.rs:120-138 | a new distributor starts with empty, consistent books |
| `Invariants.BooksAfterClaim` | programs/merkle-distributor/src/instructions/new_claim.rs:105-187 | a claim keeps the counters equal to the totals over all claim statuses |
| `Invariants.BooksAfterWithdrawal` | programs/merkle-distributor/src/instructions/claim_locked.rs:105-124 | so does a withdrawal |
| `Invariants.TransferNeverOverflows` | programs/merkle-distributor/src/instructions/new_claim.rs:156-167 | with a backed supply a transfer fails only for lack of funds |
| `Invariants.InvStep` | programs/merkle-distributor/src/lib.rs:96-155 | every instruction keeps books, backing and structure |
| `Invariants.RunKeepsInv` | programs/merkle-distributor/src/instructions/new_claim.rs:105-187 | in every reachable state the node count is the number of statuses, claimed and forgone are their exact sums, claimed is within the cap, and the supply is the sum of all balances |
| `Refusals.NewClaimRefusals` | programs/merkle-distributor/src/instructions/new_claim.rs:95-187 | a refused claim failed the check its error names, its window is too long to compute, or its payment does not fit the vault or the cap |
| `Refusals.ClaimLockedRefusals` | programs/merkle-distributor/src/instructions/claim_locked.rs:73-124 | every error of a withdrawal names a check that fails |
| `Refusals.SetRootRefusals` | programs/merkle-distributor/src/instructions/set_root.rs:106-146 | every error of a re-root names a check that fails |
| `Refusals.SettingRefusals` | programs/merkle-distributor/src/instructions/set_clawback_start_ts.rs:47-66 | every error of clawback and of the settings names a check that fails |
| `Refusals.NewDistributorRefusals` | programs/merkle-distributor/src/instructions/new_distributor.rs:96-118 | every error of creation names a check that fails |
| `Runs.SurplusStep` | programs/merkle-distributor/src/instructions/set_root.rs:94-146 | vault plus claimed minus cap is unchanged by claims, withdrawals and re-roots and rises by each deposit |
| `Runs.SurplusConserved` | programs/merkle-distributor/src/instructions/set_root.rs:94-146 | over any run before clawback the surplus is the initial one plus all deposits |
| `Runs.FundedStaysFunded` | programs/merkle-distributor/src/instructions/set_root.rs:102-103 | a funded vault covers everything still claimable until clawback, across any number of re-roots |
| `Runs.StatusesGrow` | programs/merkle-distributor/src/instructions/close_claim_status.rs:33-35 | statuses never vanish, and only their withdrawn amount changes, upwards |
| `Runs.ReRootSeesSnapshot` | programs/merkle-distributor/src/instructions/set_root.rs:126-129 | a re-root that succeeds with an earlier claim count finds exactly the claimants of that earlier state, with the same entitlements |
| `Runs.PausedMeansFrozen` | programs/merkle-distributor/src/instructions/set_root.rs:118-121 | from a pause until a resume succeeds no claim status changes, whoever tries to resume and however often it is paused again |
| `Runs.PausedRefusesClaims` | programs/merkle-distributor/src/instructions/new_claim.rs:96-99 | from a pause until a resume succeeds every claim and withdrawal fails at every slot below the largest |
| `Runs.ClawbackOnce` | programs/merkle-distributor/src/instructions/clawback.rs:52-82 | over any run clawback succeeds at most once, exactly when the flag ends up set |
| `Runs.ClawbackIsLate` | programs/merkle-distributor/src/instructions/set_clawback_start_ts.rs:47-66 | through any date changes clawback happens at least a day after full vesting |
| `Runs.FrozenAfterClawback` | programs/merkle-distributor/src/instructions/clawback.rs:80-82 | after clawback statuses, counters, root, cap and clawback date never change |
| `Runs.ClawbackDrains` | programs/merkle-distributor/src/instructions/clawback.rs:49-85 | exactly when clawback succeeds, and that it empties the vault exactly when the receiver is another account |
| `Runs.ClawedBackVaultIsStranded` | cli/src/bin/instructions/process_fund_all.rs:58-67 | after clawback nothing leaves the vault of a distributor that is not closable any more, over any run |
| `Runs.VestingIsPathIndependent` | programs/merkle-distributor/src/state/claim_status.rs:43-53 | over any run the withdrawn amount is what had vested at the last withdrawal, however many came before, and equals what left the vault |
| `Runs.WithdrawnIsVested` | programs/merkle-distributor/src/state/claim_status.rs:46-53 | in every reachable state with a forward clock no more was withdrawn than has vested, so the checked subtraction never fails |
| `Runs.WithdrawalSucceedsIff` | programs/merkle-distributor/src/instructions/claim_locked.rs:73-124 | in every reachable state with a forward clock, the exact conditions of a withdrawal: no underflow, and the check against the locked amount never fires |
| `Runs.ReRootsBurnTheCut` | programs/merkle-distributor/src/instructions/set_root.rs:64-89 | over any run re-roots burn exactly the fall of the cap |
| `Runs.OtherMintsAreNeverReRooted` | programs/merkle-distributor/src/instructions/set_root.rs:9-14 | over any run a distributor of any mint but the two DFX ones keeps its root and cap, and re-roots burn none of its tokens |
| `Runs.BurnAllRemovesBalance` | programs/token-burner/src/lib.rs:34-60 | burning always succeeds on an account of the burner and removes exactly its balance |
| `Runs.ClawbackThenBurn` | programs/token-burner/src/lib.rs:3-5 | clawback into a burner account and a burn remove exactly the vault's balance plus what the account held, and touch no other account |
| `Honest.CapCoversClaims` | programs/merkle-distributor/src/instructions/claim_locked.rs:121-124 | on a tree within the cap, paid, forgone and outstanding amounts together stay within the cap |
| `Honest.RoomForUnclaimed` | programs/merkle-distributor/src/instructions/new_claim.rs:110-113 | an unclaimed leaf always fits the node limit and the cap |
| `Honest.LeafClaimSucceeds` | programs/merkle-distributor/src/instructions/new_claim.rs:84-203 | an unclaimed leaf with its stored proof passes every check in a funded, open distributor, exactly unless the window is over-long and open |
| `Honest.LockedClaimSucceeds` | programs/merkle-distributor/src/instructions/claim_locked.rs:66-146 | a withdrawal succeeds exactly when something more has vested |
| `Honest.HonestRunStaysOnTree` | programs/merkle-distributor/src/instructions/set_root.rs:104 | through claims and re-roots that keep claimed leaves, every status stays a leaf of the tree in force, or a collision is exhibited |
| `Honest.HonestClaimsGoThrough` | programs/merkle-distributor/src/instructions/new_claim.rs:84-203 | every honest claim goes through, in any order, after any honest run |
| `Honest.HonestWithdrawalsGoThrough` | programs/merkle-distributor/src/instructions/claim_locked.rs:66-146 | after any honest run with a forward clock a claimant can withdraw exactly when the window is computable and more has vested than was withdrawn |
| `Honest.HonestRunsRespectCap` | programs/merkle-distributor/src/instructions/claim_locked.rs:121-124 | in honest runs paid plus forgone plus outstanding never passes the cap |
| `Honest.PublishedTreeIsHonest` | merkle-tree/src/airdrop_merkle_tree.rs:91-100 | a distributor created from a built tree starts an honest run, with the proofs stored in its nodes |
| `Honest.PublishedNodesCanClaim` | cli/src/bin/instructions/process_new_claim.rs:41-59 | end to end: any node of a built tree file is paid with the file's own proof after any run in which no re-root succeeds |
| `Honest.QuoteEqualsPayout` | api/src/router.rs:324-344 | the quote for an unclaimed leaf is exactly what claiming both parts at that moment moves from the vault to the claimant |
| `Honest.WithdrawalKeepsCapIff` | programs/merkle-distributor/src/instructions/claim_locked.rs:115-124 | bookkeeping for one step: a withdrawal keeps paid plus forgone under the cap exactly when the cap had room for it |
| `Funding.FundAll` | cli/src/bin/instructions/process_fund_all.rs:17-122 | a pass tops up each vault in turn; it completes exactly when no file is exceeded and the source suffices, and a stopped pass keeps what it funded |
| `Funding.SecondPassIsFree` | cli/src/bin/instructions/process_fund_all.rs:50-55 | an immediate second pass needs nothing |
| `Funding.SameFileRefundsBurns` | cli/src/bin/instructions/process_fund_all.rs:69-82 | after any run before clawback, a pass with the file the distributor was funded from succeeds in its subtraction and transfers exactly what re-roots burned beyond surplus and deposits; nothing exactly when those cover the burns |
| `Funding.FundingCoversShortfall` | cli/src/bin/instructions/process_fund_all.rs:69-82 | with a file of the cap in force, in every reachable state the checked subtraction succeeds and the amount is exactly the shortfall |
| `Funding.FundingTopsUp` | cli/src/bin/instructions/process_fund_all.rs:82-106 | with such a file the transfer succeeds and leaves the vault at exactly what is still claimable |
| `Funding.FundingIsIdempotent` | cli/src/bin/instructions/process_fund_all.rs:50-55 | once funded, a later pass with the file regenerated for the tree in force transfers nothing, whatever claims and re-roots came between |
| `Cache.ClaimCache.Receive` | api/src/cache.rs:369-411 | one message updates exactly its claimant's entry by the update rule |
| `Cache.ClaimCache.ReceiveAll` | api/src/cache.rs:368-412 | after a batch each entry has received its claimant's messages in order |
| `Cache.ShownIsHeld` | api/src/cache.rs:371-401 | the entry is the message of the observation since which the shown status has not changed: a differing one takes over unless both are updates and it is the older |
| `Cache.SettledStatusStands` | api/src/cache.rs:372-380 | a status set by an update stands through any mix of polls that see the same and updates from older slots |
| `Cache.ShownWasObserved` | api/src/cache.rs:363-414 | whatever polls and updates arrive in whatever order, the entry is a status the chain really held at one of the observed slots |
| `Cache.ObservationAgreesIff` | api/src/cache.rs:371-401 | one poll or update leaves the entry at the newest observed value exactly when it says the same, is not older than all seen, or is an update on an entry that no poll wrote |
| `Cache.AgreeingIsFirstSeen` | api/src/cache.rs:371-401 | while the cache agrees with the chain its entry is from the first observation that saw the status |
| `Cache.CacheAgreesIff` | api/src/cache.rs:363-414 | over every interleaving of polls and updates the entry shows the newest observed value all the way exactly when each observation is not older than all before it, sees what the newest of them saw, or is an update and an update was the first to see that |
| `Cache.NewestAgrees` | api/src/cache.rs:376-380 | any observation newer than all before it brings the entry back into agreement, whatever happened before |
| `Cache.CacheAgreesFromEmpty` | api/src/cache.rs:363-414 | updates alone, from empty and in any order, always leave the value of the highest slot |
| `Cache.CacheAgreesFromPoll` | api/src/cache.rs:363-414 | a poll followed by updates agrees all the way exactly when, as long as what the poll saw is the newest, every update is from the polled slot on or says the same |
| `Cache.PollAgreesIff` | api/src/cache.rs:371-380 | a poll leaves the entry in agreement exactly when it is not older than all seen or its data is what the entry holds |
| `Cache.UpdateAfterPollAgreesIff` | api/src/cache.rs:371-380 | an update on a polled entry leaves it in agreement exactly when it is not older than the poll or its data is what the entry holds |
| `Cache.StalePollSetsBack` | api/src/cache.rs:376-380 | a stale poll that overwrites newer data |
| `Cache.LateUpdateSetsBackPoll` | api/src/cache.rs:376-380 | a late update that overwrites a fresher poll, whose entry has slot 0 |
| `Cache.ChainNeverReturns` | programs/merkle-distributor/src/instructions/claim_locked.rs:105-108 | a claimant's status on the chain never returns to an earlier value |
| `Cache.CacheAgreesWithChain` | api/src/cache.rs:363-414 | for any run of the program and any interleaving of truthful polls and updates about a claimant, the cache shows the newest observed status all the way exactly when each observation is harmless; always so for updates alone |
| `Cache.ClaimCache.Follow` | api/src/cache.rs:363-414 | an empty cache fed what polls and updates truthfully observe of any run, in any order and for all claimants mixed, has an entry for exactly the observed claimants; each is the message of the observation since which the shown status has not changed, a status the chain held then, and the newest observed one for every claimant whose observations are harmless or include no poll |
| `Aggregate.AggregateEntries` | cli/src/bin/instructions/process_aggregate_if_csvs.rs:50-136 | succeeds exactly when all keys parse and no claimant's sum overflows, and yields one merged file per mint |
| `Aggregate.Accumulate` | cli/src/bin/instructions/process_aggregate_if_csvs.rs:56-106 | the nested maps hold exactly the lowest-index market and the per-claimant sums |
| `Aggregate.AddEntries` | cli/src/bin/instructions/process_aggregate_if_csvs.rs:79-105 | the inner loop adds one file's rows, or fails only on unclean input |
| `Aggregate.Emit` | cli/src/bin/instructions/process_aggregate_if_csvs.rs:109-132 | one group becomes sorted, summed rows under its label |
| `Aggregate.RepresentativeIsLowest` | cli/src/bin/instructions/process_aggregate_if_csvs.rs:63-71 | the label comes from a market of the mint with the lowest index |
| `Aggregate.OutputIsSorted` | cli/src/bin/instructions/process_aggregate_if_csvs.rs:53-56 | mints and claimants strictly ascend in byte order: by the first byte that differs, a prefix first; hence no duplicates |
| `Aggregate.SourcesAreFiles` | cli/src/bin/instructions/process_aggregate_if_csvs.rs:109-117 | an output's sources are the indices of its mint's own files, each as often as it occurs, ascending |
| `Aggregate.EveryRowIsPaid` | cli/src/bin/instructions/process_aggregate_if_csvs.rs:39-40 | every input row's claimant has an output row on its mint with the full sums of amount and locked amount |
| `Aggregate.MergedKeepsTotal` | cli/src/bin/instructions/process_aggregate_if_csvs.rs:39-40 | the rows of a merged mint add up to all raw rows of that mint over all files, locked amounts included |
| `Aggregate.SuccessIsOrderIndependent` | cli/src/bin/instructions/process_aggregate_if_csvs.rs:79-105 | whether aggregation succeeds does not depend on the order of files or rows |
| `Aggregate.PermutedFilesAreSameInput` | cli/src/bin/instructions/process_aggregate_if_csvs.rs:58 | permuting the files keeps the input the same |
| `Aggregate.PermutedRowsAreSameInput` | cli/src/bin/instructions/process_aggregate_if_csvs.rs:79 | permuting rows inside files keeps the input the same |
| `Aggregate.OutputIsOrderIndependent` | cli/src/bin/instructions/process_aggregate_if_csvs.rs:50-136 | with agreeing ties the output is the same for every order |
| `Aggregate.DistinctIndicesAgree` | cli/src/bin/instructions/process_aggregate_if_csvs.rs:69-71 | distinct indices within each mint make ties agree |
| `Aggregate.DisagreeingTiesShow` | cli/src/bin/instructions/process_aggregate_if_csvs.rs:69-71 | two lowest markets with different symbols give different outputs when the one or the other comes first |
| `Aggregate.OrderIndependentIff` | cli/src/bin/instructions/process_aggregate_if_csvs.rs:50-136 | the output is order independent exactly when ties agree |
| `Ordering.SortIndicesSorts` | cli/src/bin/instructions/process_aggregate_if_csvs.rs:115 | source indices come out ascending and with the same multiplicities |
| `Ordering.SortedKeys` | cli/src/bin/instructions/process_aggregate_if_csvs.rs:109 | ordered maps iterate over exactly their keys, strictly ascending in byte order |
| `Sharding.ScaleDefinedIff` | merkle-tree/src/csv_amount_unit.rs:17-58 | tokens scale for up to 19 decimals, cents for 2 to 21; a token of no decimals and a cent of a token of two are one base unit, each further decimal counts ten times, and a cent is a hundredth of a token |
| `Sharding.FromCsvScales` | merkle-tree/src/tree_node.rs:55-73 | a row converts exactly when its key parses and both scaled amounts fit, and keeps claimant and amounts, at ten to the decimals per token or a hundredth of that per cent |
| `Sharding.NewFromEntries` | merkle-tree/src/airdrop_merkle_tree.rs:121-133 | a tree for the rows exactly when they convert and build |
| `Sharding.CreateTrees` | cli/src/bin/instructions/process_create_merkle_tree.rs:66-91 | the loop ends for every shard size, fails for size 0, and otherwise yields one tree per shard with consecutive versions exactly when every shard builds |
| `Sharding.ShardsPartition` | cli/src/bin/instructions/process_create_merkle_tree.rs:70-73 | shards concatenate to the input; all have exactly the given size except a last one of at least one row |
| `Sharding.CombiningDistinctIsIdentity` | cli/src/bin/instructions/process_aggregate_if_csvs.rs:44-45 | the builder's own combining changes nothing on deduplicated rows |
| `Sharding.AggregatedKeysDistinct` | cli/src/bin/instructions/process_aggregate_if_csvs.rs:34-36 | aggregated rows have one row per claimant |
| `Sharding.LeavesAreRows` | cli/src/bin/instructions/process_create_merkle_tree.rs:70-91 | over all shards the leaves are exactly the rows in order, one per claimant |
| `Sharding.CapsAreTotal` | cli/src/bin/instructions/process_create_merkle_tree.rs:70-91 | the shards' caps sum to the rows' total in base units, and no tree exceeds the shard size |
| `Sharding.PipelineConserves` | cli/src/bin/instructions/process_create_merkle_tree.rs:66-91 | from the market files to the trees nothing is lost, added or paid twice: the caps of a mint's trees sum to the total of its raw rows over all files in base units, and the leaves are its rows, one per claimant |
| `EndToEnd.EntryHasLeaf` | cli/src/bin/instructions/process_create_merkle_tree.rs:70-91 | each row with a key of its own is exactly one leaf over all shards |
| `EndToEnd.RowHasLeaf` | cli/src/bin/instructions/process_aggregate_if_csvs.rs:39-46 | for every raw row of every market file exactly one leaf over all trees of its mint is for the row's claimant, with the sums of all that claimant's rows on the mint in base units |
| `EndToEnd.DeployedStaysOnTree` | merkle-tree/src/airdrop_merkle_tree.rs:91-100 | after any run in which no re-root succeeds, every claim made at a distributor deployed from a tree file is a leaf of the file, or a collision is exhibited |
| `EndToEnd.LaunchDeploys` | cli/src/bin/instructions/process_new_distributor.rs:108-118 | creating a distributor with a tree file's version, root, cap and node count gives a sound, unclaimed distributor for that file |
| `EndToEnd.NodeCollectsTotal` | programs/merkle-distributor/src/instructions/new_claim.rs:84-203 | from the end of vesting on, after any such run, an unclaimed node of the file claims both parts with its own proof and receives its whole total |
| `EndToEnd.RowIsPaidInFull` | cli/src/bin/instructions/process_create_merkle_tree.rs:66-91 | market files, trees, the creating calls and claims composed: for every raw row there is one distributor of its mint at which the claimant, after any such run, receives from the end of vesting on exactly the sum of all their raw rows at ten to the decimals per token, and no other has a leaf for them |
| `EndToEnd.EveryoneIsPaid` | merkle-tree/src/airdrop_merkle_tree.rs:161-205 | a valid tree file can be paid out completely: when all its claimants claim both parts after the end of vesting, exactly they have claimed, the cap is paid out with nothing forgone, and the vault holds the surplus |
| `Counterexamples.CreateSucceeds` | programs/merkle-distributor/src/instructions/new_distributor.rs:84-138 | the program creates a distributor for a one-leaf tree with any cap, any start before its end, and either receiver; all failing inputs below start from it |
| `Counterexamples.NegativeStartBreaksClaims` | programs/merkle-distributor/src/instructions/new_distributor.rs:96-118 | a created and funded distributor whose start is the lowest i64 refuses its leaf on arithmetic at every time before the end and pays it from the end on |
| `Counterexamples.ClawbackToVaultStrands` | programs/merkle-distributor/src/instructions/clawback.rs:28-29 | a created distributor whose receiver is its vault: clawback succeeds, the balance stays, and it never leaves over any run |
| `Counterexamples.CapBelowTreeIsOvershot` | programs/merkle-distributor/src/instructions/claim_locked.rs:121-124 | a created distributor with a cap below its tree: a claim and a withdrawal take paid plus forgone past the cap |
| `Counterexamples.OldFileRefundsCut` | cli/src/bin/instructions/process_fund_all.rs:69-82 | a created and funded distributor, re-rooted from 15 down to 9: the old file asks for the 6 burned tokens |
| `Counterexamples.EqualIndicesShowOrder` | cli/src/bin/instructions/process_aggregate_if_csvs.rs:69-71 | two files of one mint with equal indices and different symbols: both orders aggregate, and to different outputs |

## Left out

- Honest.WithdrawalKeepsCapIff: states one step only, and its condition is the cap's remaining room; which caps below a tree's total are overshot by some run depends on the rounding of every leaf's schedule and is not characterised, only that no cap at or above the total is (`HonestRunsRespectCap`).
- `close_distributor` and re-creating a closed distributor: production distributors are not closable, and the model follows one distributor that stays open. A closable distributor's admin can still empty its vault after clawback, so `ClawedBackVaultIsStranded` is about the others.
- SHA-256, base58, program-derived addresses, rent and account (de)serialisation: parameters or facts about who can sign.
- Several mints in one state: all token accounts are of the distributor's mint, and a transfer across mints would fail in the token program.
- Token accounts that are closed or change owner: the token program allows it for accounts other than the vault; no result depends on the owners of those accounts over time.
- Update of a claim-status account in place: claim statuses are values in a map that the handlers reassign; each account is written by one handler at a time.
- Update of a tree node's proof in place: nodes are values, and the loop returns the nodes with their proofs.
- Events and log messages, and the order among account-constraint errors.
- Several distributors for one claimant in the cache: entries are keyed by claimant only, so the results are about one distributor's messages.
- The warning about conflicting symbols, and writing merged configurations and files: output only.
- The search for a free airdrop version, the test-wallet list and the final log line of tree creation: input and output around the sharding loop.
- The floating-point logarithm in the capacity computation: the integer bound leaves one node of slack for it.
- Funding reads and transfers atomically per tree: a claim that lands between the read and the transfer is not modelled.
- The TypeScript claimable amount, which returns 0 after the end, and the test-side tree builder, which promotes odd nodes: different functions from the ones modelled.
- HTTP, RPC, websockets, retries and command-line parsing: plumbing without a property of its own.
