# Solana governance: a verified model

The repository carries a stake-weighted governance vote from the accounts of a
Solana bank to totals published on chain. This project models that path, and
the tools around it, in Dafny, and proves what each part promises.

**Snapshot.** Operators scan the stake accounts, build a stake tree for every
vote account and a meta tree over those (`Generate.dfy`, `Snapshot.dfy`), on top
of one flat-vector Merkle tree (`MerkleTree.dfy`, specified by `MerkleSpec.dfy`
and `Hashing.dfy`). `remerklize` re-derives a snapshot after a change.

**Verifier.** An upload is checked and re-derived before it replaces the rows of
one (network, slot) (`Verifier.dfy`, `VerifierStore.dfy`, `Tables.dfy`).

**Ballot box.** Operators vote on which snapshot is the right one
(`BallotBox.dfy`); `BallotBoxHistory.dfy` reads it off the list of events.

**Tally.** Validators vote with their delegated stake, delegators override their
part of it, everyone proves their weight against the agreed root (`Voting.dfy`),
with what the verifier serves (`ServedVotes.dfy`). `VotingChoices.dfy` is the same
election without caches and running sums. `Interplay.dfy` runs the proposal, the
ballot boxes and the votes side by side.

**Squads client.** Instructions and lookup tables are compiled to an indexed
message and written to the wire (`CompiledKeys.dfy`, `MessageCompiler.dfy`,
`Wire.dfy`, `VaultTransaction.dfy`).

**Routing.** The whitelist cron job and the router decide which verifiers get
traffic (`Routing.dfy`).

**Frontend.** The status shown for a proposal (`Lifecycle.dfy`) and the three-way
vote editor (`VoteSplit.dfy`).

Code that works in place is modelled in place: classes with the fields the
source updates (`Snapshot.MetaMerkleSnapshot`, `VerifierStore.VerifierService`,
`BallotBox.BallotBoxAccount`, `Voting.ProposalAccounts`,
`CompiledKeys.CompiledKeys`, `VoteSplit.VoteDistribution`), loops with
invariants, an array for the rows that demotion rewrites. Each such method is
tied to a function or predicate of its inputs, and the laws are proved of that.

## Main results

- `WholeSystem.FromScanToTotals`: for every set of stake accounts, any behaviour
  of operators too few to reach the threshold, and any interleaving of what
  happens to the proposal, the ballot boxes and the votes, the books balance and
  the published totals never exceed the stake scanned.
- `WholeSystem.EveryScannedAccountCounts`: and while voting goes on, every scanned
  account with stake has its override accepted exactly once, and its validator's
  vote likewise.
- `Interplay.OneElection`: window and root move while a proposal is on its way,
  but no vote is ever counted against ones that later change.
- `MerkleProofs.AcceptedIffGenuine`: data and a sibling list of any length
  verify exactly when the data is an item and the list is its own proof.
- `VotingChoices.LedgerRefinesChoices`, `HeardIsAccepted`: the ledger with its
  caches and running sums refines an election that only remembers who said what
  last and works the totals out from that.
- `VotingTheorems.EveryRunBalances`, `EntitledIsAccepted`, `OrderIrrelevant`:
  nobody's stake counts twice, no entitled voter is stopped by the arithmetic,
  and the totals depend only on the choices that stand.
- `VerifierLaws.StoreReflectsLastAccepted`: after any uploads the store holds
  exactly the rows of the last accepted one for each (network, slot), and
  `HeldWasSigned` says what an accepted one must have been.
- `Generate.ScanOrderIrrelevant`, `SnapshotLaws.RemerklizeCanonical`: the
  snapshot does not depend on any iteration order.
- `MessageCompiler.TryCompile`, `VaultTransaction.CreateFromInstructions`: the
  compiler succeeds exactly when the keys fit, and the bytes it leads to decode
  to a message that executes as the instructions.
- `Routing.RoutableVerifiers`: one ticket for each origin with a fresh entry.
- `BallotBoxLaws.HonestBallotWins`, `BallotBoxAdmission.KeptVotesDecideIff`: safety
  of the operators' vote, and liveness with its exact condition;
  `BallotBoxHistory.StandingIffCast` reads the standing votes off the events.
- `ServedVotes.ServedVoteAccepted`, `ServedOverrideAccepted`: what the verifier
  serves after any uploads is what the chain accepts.
- `Lifecycle.ShownForward`: the displayed status never moves backwards.

## How hashing is treated

The hash is a parameter: any function from byte strings to 32 bytes.
Completeness holds for every such function. Soundness needs no idealised hash:
it assumes only that no two different strings *among those actually hashed* by
the tree and by the check collide (`Hashing.CollisionFreeOn`). Base58 text is
modelled as the 32 bytes it stands for, or as other text.

## Where code and comments differ

- `merkle_tree.rs` argues in its comment for a capacity of 2n + log2(n + 1); the
  code reserves log2(n) + 2n + 1, which is what `TreeShape.CapacitySuffices` is
  about.
- `compiled_keys.rs` ignores a table position beyond 255 rather than reporting
  `AddressTableLookupIndexOverflow`; the key then stays in the message. The model
  does the same (`CompiledKeys.InTable`).
- `try_to_vec` truncates lengths to 32 bits without an error.
  `VaultTransaction.ArgsRoundTripIff` says exactly when arguments survive,
  `VaultTransaction.LongMessageLost` gives an input that is lost silently, and
  `VaultTransaction.MessageIsShort` shows that a message the serializer accepts
  is never that long.
- `Proof::verify` accepts every candidate for a tree of one leaf;
  `MerkleProofs.PathAcceptsOnlyLeaf` states the exact condition.
- `proposals.ts` describes a discussion phase after the threshold is met without
  the voting flag; the code shows it for one epoch and then fails the proposal.
  `Lifecycle.ShownIff` follows the code, and `Lifecycle.DiscussionThenFailed` and
  `Lifecycle.DiscussionWithoutVoting` show it happening.
- `remove_vote.rs` keeps a tally when its last vote is taken back, so the 64
  tallies can be used up by votes that no longer stand. A first vote for a
  further ballot is then refused, however many operators want to cast it, until
  the administrator resets the box: `BallotBoxAdmission.TalliesCanRunOut`.
  `BallotBoxAdmission.CastAcceptedIff` says exactly when a vote is let in, and
  `BallotBoxAdmission.KeptVotesDecideIff` exactly when enough votes decide.

## Model

| member | source | states |
|---|---|---|
| TreeShape.CapacitySuffices | ncn/merkle-tree/src/merkle_tree.rs:90-111 | the node total of n leaves is at most the reserved capacity, floor(log2 n) + 2n + 1 |
| TreeShape.NodeCountHeight | ncn/merkle-tree/src/merkle_tree.rs:90-100 | the node total is at most 2n + height - 2 from two leaves on |
| TreeShape.HeightIsCeilLog2 | ncn/merkle-tree/src/merkle_tree.rs:82-88 | the number of levels above the leaves is the ceiling of log2 n |
| MerkleSpec.FoldClimbs | ncn/merkle-tree/src/merkle_tree.rs:142-149 | folding a leaf along its siblings arrives at the leaf's ancestor on every level, duplicated odd tails included |
| Hashing.PairInputInjective | ncn/merkle-tree/src/merkle_tree.rs:142-149 | equal sorted inputs come from the same pair of siblings, in one order or the other |
| Hashing.PrefixesSeparate | ncn/merkle-tree/src/merkle_tree.rs:5-21 | no leaf input is ever a node input |
| Bytes.LeqIsNumeric | ncn/merkle-tree/src/merkle_tree.rs:142-149 | for strings of one length the order is that of the numbers they write out, most significant byte first |
| Hashing.PairingWritten | ncn/merkle-tree/src/merkle_tree.rs:131-155 | siblings are hashed behind a byte 1, in the given order or, when sorted, the numerically smaller first |
| Hashing.OneItemRoot | ncn/merkle-tree/src/merkle_tree.rs:113-167 | the root of one item is the hash of a byte 0 and the item |
| Hashing.TwoItemRoot | ncn/merkle-tree/src/merkle_tree.rs:113-163 | the sorted root of two items is the hash of 1, the numerically smaller leaf hash and the larger; a leaf hash is that of 0 and the item |
| Hashing.ThreeItemRoot | ncn/merkle-tree/src/merkle_tree.rs:113-163 | the sorted root of three items, with the odd leaf paired with itself |
| MerkleTree.PushLevel | ncn/merkle-tree/src/merkle_tree.rs:131-155 | one pass of the outer loop appends exactly the next level of the recursive tree |
| MerkleTree.New | ncn/merkle-tree/src/merkle_tree.rs:113-163 | the flat vector holds every level of the recursive tree at its own offset range and nothing else; the lemmas on two and three items write that tree out |
| MerkleTree.GetRootIsRoot | ncn/merkle-tree/src/merkle_tree.rs:165-167 | the last element is the recursively defined root, and there is none for no items |
| MerkleTree.ClimbLevel | ncn/merkle-tree/src/merkle_tree.rs:181-198 | one pass of the path loop records the entry with exactly one sibling and moves to the parent |
| MerkleTree.FindPath | ncn/merkle-tree/src/merkle_tree.rs:169-204 | a path exists exactly for indexes in range, has one entry per level, and each entry is the ancestor with its child's sibling |
| MerkleTree.GetProof | ncn/merkle-tree/src/utils.rs:3-16 | the proof is the list of siblings of the leaf, one for each level |
| MerkleTree.VerifyHelper | ncn/programs/ncn-snapshot/src/merkle_helper.rs:33-52 | the loop accepts exactly when the sorted fold from the leaf hash is the root |
| MerkleProofs.Completeness | ncn/merkle-tree/src/merkle_tree.rs:113-204 | every item's proof verifies against the root, for every hash and every number of items |
| MerkleProofs.Descend | ncn/merkle-tree/src/merkle_tree.rs:113-167 | a value that folds up to a node started at a leaf below it and climbed along that leaf's siblings |
| MerkleProofs.AcceptedIffGenuine | ncn/programs/ncn-snapshot/src/merkle_helper.rs:33-52 | the checker accepts exactly the pairs of an item and its own proof, whatever the length of the proof |
| MerkleProofs.VerifyPathFrom | ncn/merkle-tree/src/merkle_tree.rs:59-72 | the unsorted path checker accepts the genuine node of every level along the rest of its path |
| MerkleProofs.PathAcceptsOnlyLeaf | ncn/merkle-tree/src/merkle_tree.rs:59-72 | an extracted path accepts a candidate exactly when it is the leaf or the tree has a single leaf |
| Snapshot.MetaMerkleSnapshot.DeriveBundles | ncn/cli/src/merkle.rs:92-115 | the first loop sorts, re-roots and re-sums every bundle, or stops at the first bundle that is empty or overflows, with the earlier ones done and the overflowing one re-rooted |
| Snapshot.DeriveBundle | ncn/cli/src/merkle.rs:95-114 | one pass: derived exactly when there are leaves and their sum fits, unchanged when empty, re-rooted with the former sum on overflow |
| Snapshot.MetaMerkleSnapshot.AttachProofs | ncn/cli/src/merkle.rs:132-134 | every bundle gets its own proof in the meta tree over all of them |
| Snapshot.MetaMerkleSnapshot.Remerklize | ncn/cli/src/merkle.rs:91-136 | succeeds exactly when there are bundles, each with leaves and a sum that fits; then every derived field is the re-derived one |
| Snapshot.SumStakes | ncn/cli/src/merkle.rs:110-114 | the loop computes the sum of the leaves |
| SnapshotLaws.GetStakeMerkleProof | ncn/cli/src/merkle.rs:150-158 | the proof rebuilt for a leaf verifies against the root of the bundle's leaves |
| SnapshotLaws.RemerklizeCanonical | ncn/cli/src/merkle.rs:91-136 | two snapshots that are permutations of each other at both levels become identical |
| SnapshotLaws.RemerklizedNormal | ncn/cli/src/merkle.rs:91-136 | the outcome is sorted at both levels and has all fields derived |
| SnapshotLaws.NormalFormFixed | ncn/cli/src/merkle.rs:91-136 | a snapshot in that form is left as it is |
| SnapshotLaws.RemerklizeIdempotent | ncn/cli/src/merkle.rs:91-136 | applying it twice is applying it once |
| SnapshotLaws.RemerklizedInOrder | ncn/cli/src/merkle.rs:94-131 | bundles and leaves come in numerically ascending order of their keys |
| SnapshotLaws.RemerklizedKeepsPopulation | ncn/cli/src/merkle.rs:91-136 | wallets, vote accounts and stake leaves are those it began with |
| SnapshotLaws.AttachedProofsVerify | ncn/cli/src/merkle.rs:116-136 | the proof attached to each bundle verifies its meta leaf against the root |
| SnapshotLaws.StakeContentLayout | ncn/programs/ncn-snapshot/src/state/proof.rs:73-81 | the hashed bytes of a stake leaf: wallet, account, and digit by digit the stake |
| SnapshotLaws.MetaContentLayout | ncn/programs/ncn-snapshot/src/state/proof.rs:52-61 | the hashed bytes of a meta leaf: wallet, vote account, stake root, and digit by digit the stake |
| Generate.CollectStakeDelegations | ncn/cli/src/lib.rs:73-110 | the map groups by voter exactly the accounts with active stake, in scan order |
| Generate.BuildBundle | ncn/cli/src/lib.rs:221-276 | one voter's bundle has its leaves in key order, their root and their sum, or the sum overflows |
| Generate.BuildBundles | ncn/cli/src/lib.rs:219-284 | whatever order the map is visited in, the sorted bundles are the same |
| Generate.GenerateMetaMerkleSnapshot | ncn/cli/src/lib.rs:183-316 | a snapshot results exactly when there is a voter and every sum fits; then its bundles, proofs and root are functions of the scan, whose wallets, order and leaves the laws below pin down |
| Generate.ScanOrderIrrelevant | ncn/cli/src/lib.rs:198-316 | any two orders of the same accounts generate the identical bundles and proofs, or the same panic |
| Generate.FreshIsRemerklized | ncn/cli/src/merkle.rs:91-136 | re-deriving a freshly generated snapshot changes nothing |
| Generate.StakeConserved | ncn/cli/src/lib.rs:99-277 | the meta leaves sum to the total of all non-zero delegations |
| GenerateLaws.FreshPasses | ncn/verifier-service/src/upload.rs:137-254 | a freshly generated snapshot passes every check made on upload |
| GenerateLaws.FreshInOrder | ncn/cli/src/lib.rs:244-300 | generated bundles and their leaves come in numerically ascending order |
| GenerateLaws.LeafHasSource | ncn/cli/src/lib.rs:219-277 | behind every leaf is a scanned account with stake, from which it takes key, stake, wallet and bundle |
| Tables.HeldSumIs | ncn/verifier-service/src/upload.rs:194-203 | the rows held for a (network, slot) sum to the entries they were replaced by |
| Tables.ReplaceHolds | ncn/verifier-service/src/database/operations.rs:13-56 | deleting and inserting leaves exactly the new rows under the key and the rest untouched |
| Verifier.ValidateStakeMerkleRoots | ncn/verifier-service/src/upload.rs:137-152 | accepts exactly when every bundle has leaves and the root they hash to |
| Verifier.ValidateLeaves | ncn/verifier-service/src/upload.rs:166-181 | the inner loop gives the sum exactly when no leaf repeats, here or before, and the sum fits |
| Verifier.ValidateSnapshot | ncn/verifier-service/src/upload.rs:154-192 | accepts exactly when no vote account and no stake account repeats and every stake is the sum of its leaves |
| VerifierStore.TotalActiveStake | ncn/verifier-service/src/upload.rs:204-209 | gives the exact total, and an error exactly when it exceeds 64 bits |
| VerifierStore.InsertStakeRows | ncn/verifier-service/src/upload.rs:310-336 | inserts one row per leaf with its own proof, unless a stake exceeds the signed column |
| VerifierStore.InsertBundles | ncn/verifier-service/src/upload.rs:279-344 | inserts the rows of all bundles, exactly when every bundle's stake fits the signed column |
| VerifierStore.VerifierService.ReconstructMetaMerkleTree | ncn/verifier-service/src/upload.rs:232-254 | yields the meta tree exactly when its root is the recorded one |
| VerifierStore.VerifierService.IndexSnapshotData | ncn/verifier-service/src/upload.rs:257-365 | replaces the rows of one (network, slot) in full, or changes nothing |
| VerifierStore.VerifierService.HandleUpload | ncn/verifier-service/src/upload.rs:24-135 | the status follows the order of the gates, and the store changes exactly on success; when each status occurs is written out in `VerifierLaws.StatusIff` |
| VerifierLaws.StatusIff | ncn/verifier-service/src/upload.rs:38-135 | each status occurs exactly when its reason holds, written out: network, signature, signed root, slot and hash, contents, columns, database |
| VerifierLaws.UnsignedChangesNothing | ncn/verifier-service/src/upload.rs:38-58 | an upload without a valid signature, or for another network, leaves the store alone |
| VerifierLaws.HeldWasSigned | ncn/verifier-service/src/upload.rs:38-135 | after any uploads, whatever is held for a (network, slot) is the whole file of one signed and sound upload for it |
| VerifierLaws.LeavesAreServed | ncn/verifier-service/src/upload.rs:279-344 | every leaf of that file is in the rows, as it stands in the file |
| VerifierLaws.StoreReflectsLastAccepted | ncn/verifier-service/src/upload.rs:257-365 | after any sequence of uploads every (network, slot) holds exactly the rows of its last accepted upload, or nothing |
| VerifierLaws.ServedVoteProofVerifies | ncn/verifier-service/src/upload.rs:103-110 | every vote row in the store comes with a proof that folds to the recorded root |
| VerifierLaws.ServedStakeProofVerifies | ncn/verifier-service/src/upload.rs:310-336 | every stake row comes with a proof that folds to the stake root of its vote row |
| VerifierLaws.RecordedTotalConserved | ncn/verifier-service/src/upload.rs:346-354 | after any uploads the recorded total is the sum of the vote rows held for the (network, slot) and of the stake rows held for it, and never wrapped |
| VerifierLaws.RemerklizedPassesIff | ncn/verifier-service/src/upload.rs:137-254 | a re-derived snapshot passes every check exactly when no account repeats |
| BallotBox.BallotBoxAccount.CastVote | ncn/programs/ncn-snapshot/src/instructions/ballot/cast_vote.rs:16-93 | accepts exactly an unexpired first vote of a listed operator that finds room, and moves the box by the specified step |
| BallotBox.BallotBoxAccount.RemoveVote | ncn/programs/ncn-snapshot/src/instructions/ballot/remove_vote.rs:12-51 | takes back a standing vote before consensus and expiry, and nothing else |
| BallotBox.BallotBoxAccount.ResetBallotBox | ncn/programs/ncn-snapshot/src/instructions/ballot/reset_ballot_box.rs:14-38 | clears a full box without consensus |
| BallotBox.BallotBoxAccount.SetTieBreaker | ncn/programs/ncn-snapshot/src/instructions/ballot/set_tie_breaker.rs:14-31 | decides only after expiry and without consensus |
| BallotBox.BallotBoxAccount.FinalizeBallot | ncn/programs/ncn-snapshot/src/instructions/ballot/finalize_ballot.rs:24-37 | writes the result once, and only with consensus |
| BallotBoxLaws.EveryRunKeeps | ncn/programs/ncn-snapshot/src/state/ballot_box.rs:10-41 | over every run: one vote per listed operator, every tally the number of its backers, consensus on record exactly from the first tally that reaches it |
| BallotBoxLaws.RemovalNeverFails | ncn/programs/ncn-snapshot/src/instructions/ballot/remove_vote.rs:45-48 | the index into the tallies and the checked subtraction never fail |
| BallotBoxLaws.ConsensusIsFinal | ncn/programs/ncn-snapshot/src/instructions/ballot/cast_vote.rs:83-90 | winner, slot and result never change once consensus is reached |
| BallotBoxLaws.MajorityIsUnique | ncn/programs/ncn-snapshot/src/instructions/ballot/cast_vote.rs:83-90 | with a threshold above one half no two ballots ever both reach it |
| BallotBoxLaws.HonestBallotWins | ncn/programs/ncn-snapshot/src/instructions/ballot/cast_vote.rs:16-93 | while the others cannot reach the threshold by themselves, only the ballot of the honest operators wins or is written |
| BallotBoxLaws.EnoughBackersDecide | ncn/programs/ncn-snapshot/src/instructions/ballot/cast_vote.rs:83-90 | consensus is on record whenever a ballot has enough standing votes |
| BallotBoxAdmission.CastAcceptedIff | ncn/programs/ncn-snapshot/src/instructions/ballot/cast_vote.rs:34-81 | after any run a vote is accepted exactly when the operator may cast it and the ballot has a tally or there is room for one; the checked addition and the vote list never refuse it |
| BallotBoxAdmission.KeptVotesDecideIff | ncn/programs/ncn-snapshot/src/instructions/ballot/cast_vote.rs:16-93 | operators who each cast a timely vote for one ballot and keep it, whatever others do in between short of a reset, all end up behind it if and only if it is admitted when the first of them votes; and if they are enough, consensus is on record |
| BallotBoxAdmission.AdmissionStays | ncn/programs/ncn-snapshot/src/instructions/ballot/remove_vote.rs:45-48 | short of a reset a tallied ballot stays tallied and a shut out one stays out |
| BallotBoxAdmission.EnoughVotesDecideIff | ncn/programs/ncn-snapshot/src/instructions/ballot/cast_vote.rs:16-93 | enough fresh votes for one ballot bring about consensus if and only if the ballot has a tally or there is room for one |
| BallotBoxAdmission.CastsRefused | ncn/programs/ncn-snapshot/src/instructions/ballot/cast_vote.rs:55-69 | any number of votes for a ballot without tally and room change nothing |
| BallotBoxAdmission.TalliesCanRunOut | ncn/programs/ncn-snapshot/src/instructions/ballot/remove_vote.rs:45-48 | a run after which a vote that may be cast is refused and no number of such votes decides, until a reset, which is possible then and lets it in |
| BallotBoxHistory.ReachesIff | ncn/programs/ncn-snapshot/src/instructions/ballot/cast_vote.rs:83-90 | the rounded share reaches the threshold exactly when the exact one does |
| BallotBoxHistory.AcceptedIffPermitted | ncn/programs/ncn-snapshot/src/instructions/ballot/cast_vote.rs:20-81 | after any run each event goes through exactly under conditions written out on the record |
| BallotBoxHistory.StandingIffCast | ncn/programs/ncn-snapshot/src/instructions/ballot/remove_vote.rs:12-51 | after any run an operator's vote stands for a ballot exactly when it was accepted and not taken back since |
| BallotBoxHistory.VotesWereCast | ncn/programs/ncn-snapshot/src/instructions/ballot/cast_vote.rs:71-76 | every vote on record was cast by its operator at its slot |
| BallotBoxHistory.WinnerWasNamed | ncn/programs/ncn-snapshot/src/instructions/ballot/cast_vote.rs:83-90 | the winner on record was named, at that slot, by an accepted event before which nothing was decided |
| BallotBoxHistory.TieBreakerDecides | ncn/programs/ncn-snapshot/src/instructions/ballot/set_tie_breaker.rs:14-31 | an accepted tie breaker puts its ballot on record, and every later winner and result is that ballot |
| Voting.ProposalAccounts.VerifyMerkleProof | ncn/programs/ncn-snapshot/src/instructions/verify/verify_merkle_proof.rs:15-48 | accepts exactly when the meta leaf folds to the root and, for a delegator, the stake leaf folds to the meta leaf's stake root |
| Voting.ProposalAccounts.CastVote | svmgov/program/programs/svmgov_program/src/instructions/cast_vote.rs:57-272 | accepts exactly an entitled, computable vote, and moves the ledger by the specified step |
| Voting.ProposalAccounts.ModifyVote | svmgov/program/programs/svmgov_program/src/instructions/modify_vote.rs:47-200 | replaces the vote's share of the totals, without the overridden stake |
| Voting.ProposalAccounts.OverrideVote | svmgov/program/programs/svmgov_program/src/instructions/cast_vote_override.rs:200-282 | moves the delegator's stake out of a vote already cast, in full or not at all |
| Voting.ProposalAccounts.OverrideAhead | svmgov/program/programs/svmgov_program/src/instructions/cast_vote_override.rs:283-352 | counts an override ahead of the vote and caches its stake, in full or not at all |
| Voting.ProposalAccounts.CastVoteOverride | svmgov/program/programs/svmgov_program/src/instructions/cast_vote_override.rs:76-391 | accepts exactly an entitled, computable override, and moves the ledger by the specified step |
| Voting.ProposalAccounts.ModifyVoteOverride | svmgov/program/programs/svmgov_program/src/instructions/modify_vote_override.rs:70-292 | replaces an override's share of the totals and of the cache by that of the new split |
| Voting.ProposalAccounts.FinalizeProposal | svmgov/program/programs/svmgov_program/src/instructions/finalize_proposal.rs:16-40 | finalizes once, with the voting flag set, after the end epoch |
| VotingLaws.ShareBound | svmgov/program/programs/svmgov_program/src/utils.rs:52-61 | the rounded parts of a stake never add up to more than the stake |
| VotingLaws.OverriddenBound | svmgov/program/programs/svmgov_program/src/instructions/cast_vote_override.rs:226-240 | the overrides under a vote account never exceed its stake |
| VotingLaws.TotalsWithinStake | svmgov/program/programs/svmgov_program/src/state/proposal.rs:116-163 | balanced books publish no more than the stake of the snapshot |
| VotingLaws.ShareRounding | svmgov/program/programs/svmgov_program/src/utils.rs:52-61 | the rounded parts fall short of the stake by at most two lamports |
| VotingLaws.TotalsUpToRounding | svmgov/program/programs/svmgov_program/src/state/proposal.rs:116-163 | the totals are the participating stake but for at most two lamports for each vote and override |
| VotingRuns.NoUnderflow | svmgov/program/programs/svmgov_program/src/state/proposal.rs:141-163 | no checked subtraction fails for leaves of the snapshot |
| VotingRuns.CastVoteKeeps | svmgov/program/programs/svmgov_program/src/instructions/cast_vote.rs:57-272 | a vote keeps the books balanced |
| VotingRuns.ModifyVoteKeeps | svmgov/program/programs/svmgov_program/src/instructions/modify_vote.rs:47-200 | a changed vote keeps the books balanced |
| VotingRuns.CastVoteOverrideKeeps | svmgov/program/programs/svmgov_program/src/instructions/cast_vote_override.rs:76-391 | an override keeps the books balanced, before or after the vote |
| VotingRuns.ModifyVoteOverrideKeeps | svmgov/program/programs/svmgov_program/src/instructions/modify_vote_override.rs:70-292 | a changed override keeps the books balanced |
| VotingTheorems.ComputableIff | svmgov/program/programs/svmgov_program/src/state/proposal.rs:116-163 | the checked arithmetic fails only when the 32-bit vote counter is full |
| VotingTheorems.MetaProvedIff | ncn/programs/ncn-snapshot/src/instructions/verify/verify_merkle_proof.rs:15-48 | a meta proof is accepted exactly when the leaf is in the snapshot and the proof is its own |
| VotingTheorems.StakeProvedIff | ncn/programs/ncn-snapshot/src/instructions/verify/verify_merkle_proof.rs:15-48 | a stake proof is accepted exactly when the leaf is in that stake tree and the proof is its own |
| VotingTheorems.MetaContentInjective | ncn/programs/ncn-snapshot/src/state/proof.rs:52-61 | the hashed bytes of a meta leaf determine the leaf |
| VotingTheorems.StakeContentInjective | ncn/programs/ncn-snapshot/src/state/proof.rs:73-81 | the hashed bytes of a stake leaf determine the leaf |
| VotingTheorems.EveryRunBalances | svmgov/program/programs/svmgov_program/src/instructions/cast_vote.rs:57-272 | over every run against an accepted snapshot the books balance, the totals stay within its stake, and fall short of the participating stake only by rounding |
| VotingTheorems.EntitledIsAccepted | svmgov/program/programs/svmgov_program/src/instructions/cast_vote_override.rs:76-391 | after any run a transaction is accepted exactly when its sender is entitled and the counter is not full |
| VotingTheorems.EveryoneCanVote | svmgov/program/programs/svmgov_program/src/instructions/cast_vote.rs:57-272 | while voting is open, each validator with stake can vote once and each delegator with stake can override once |
| VotingTheorems.TotalsDeterminedByChoices | svmgov/program/programs/svmgov_program/src/instructions/modify_vote_override.rs:70-292 | balanced books with the same standing choices have the same totals |
| VotingTheorems.OrderIrrelevant | svmgov/program/programs/svmgov_program/src/instructions/cast_vote_override.rs:76-391 | two runs that leave the same choices standing publish the same totals |
| VotingChoices.LastWordStands | svmgov/program/programs/svmgov_program/src/instructions/modify_vote_override.rs:70-292 | after any run the split recorded for a validator or a delegator is that of the last accepted transaction for it in the list |
| VotingChoices.LastWordsDecide | svmgov/program/programs/svmgov_program/src/instructions/modify_vote_override.rs:70-292 | two lists of transactions in which everyone said the same last publish the same totals |
| VotingChoices.LedgerRefinesChoices | svmgov/program/programs/svmgov_program/src/instructions/cast_vote_override.rs:76-391 | after any run the ledger, with its caches and running sums, records the choices of the reference election, and publishes for, against and abstaining what those choices are worth |
| VotingChoices.HeardIsAccepted | svmgov/program/programs/svmgov_program/src/instructions/cast_vote.rs:57-272 | after any run a transaction is accepted exactly when the reference election hears it: in the window, whole, signed by the wallet of a leaf with stake that comes with its own proofs, and first or not as the kind asks |
| VotingChoices.RecordsNameTheHolder | svmgov/program/programs/svmgov_program/src/instructions/cast_vote.rs:228-272 | each recorded vote and override names the wallet of its leaf |
| VotingExample.SmallElection | svmgov/program/programs/svmgov_program/src/instructions/cast_vote.rs:57-272 | the assumptions of the voting theorems can hold together: a smallest election in which a vote of 1000 lamports is split 700 to 300 |
| VotingTheorems.FinalizedIsFrozen | svmgov/program/programs/svmgov_program/src/instructions/finalize_proposal.rs:16-40 | nothing changes after finalization |
| WholeSystem.AgreedRoot | ncn/programs/ncn-snapshot/src/instructions/ballot/finalize_ballot.rs:24-37 | a result that came about by vote is the root the honest operators generate, each from its own scan order |
| ServedVotes.ServedVoteAccepted | ncn/verifier-service/src/upload.rs:289-308 | after any uploads and votes, a vote made from the served row is accepted exactly when the row has stake and the validator has not voted |
| ServedVotes.ServedOverrideAccepted | ncn/verifier-service/src/upload.rs:318-336 | after any uploads and votes, an override made from the served rows is accepted exactly when its row has stake and it was not made before |
| Interplay.ProposalKeepsSettled | svmgov/program/programs/svmgov_program/src/instructions/flush_merkle_root.rs:55-124 | once something is counted no support, flush or passing of time changes the election it was counted under |
| Interplay.BoxKeepsSettled | ncn/programs/ncn-snapshot/src/instructions/ballot/finalize_ballot.rs:24-37 | a root that votes were checked against stays |
| Interplay.VoteKeepsSettled | svmgov/program/programs/svmgov_program/src/instructions/cast_vote.rs:64-120 | a vote is only accepted in its window and against a root that is there |
| Interplay.OneElection | svmgov/program/programs/svmgov_program/src/instructions/cast_vote.rs:57-272 | whatever happens in whatever order, the ledger is that of the counted transactions under the one election that holds at the end |
| WholeSystem.FromScanToTotals | ncn/cli/src/lib.rs:158-316 | from any stake accounts, through generation, agreement and any interleaving of proposal, ballot boxes and votes, the books balance, the published totals never exceed the stake scanned, and fall short of the participating stake only by rounding |
| WholeSystem.PublishedIsWorth | ncn/cli/src/lib.rs:158-316 | under any interleaving the published totals are what the last words are worth against the generated snapshot |
| WholeSystem.EveryScannedAccountCounts | svmgov/program/programs/svmgov_program/src/instructions/cast_vote_override.rs:76-391 | whatever has happened, while voting goes on, every scanned account with stake has a leaf under its validator with which its override, signed by its wallet, is accepted exactly if it was not made before, and the vote signed by the validator's identity likewise |
| GenerateLaws.AccountHasLeaf | ncn/cli/src/lib.rs:99-277 | every account with stake has its leaf in the bundle of its voter, held by the pool wallet of its withdraw authority or else by that authority, and the bundle by the vote account's identity or the default key |
| WholeExample.SmallStory | ncn/cli/src/lib.rs:158-316 | the assumptions of the whole-system theorem can hold together: one account scanned, one ballot agreed on, one vote counted |
| CompiledKeys.CompiledKeys.Compile | squads-client/src/message/compiled_keys.rs:35-57 | the map holds exactly the referenced keys, each with the union of what is asked of it and the vault forced to writable signer |
| CompiledKeys.CompiledKeys.DrainKeysFoundInLookupTable | squads-client/src/message/compiled_keys.rs:150-181 | takes out exactly the keys that pass the filter and are in the table, in key order, with indexes that point at them |
| CompiledKeys.CompiledKeys.ExtractTableLookup | squads-client/src/message/compiled_keys.rs:120-148 | takes out all loadable keys of a table, split by writability, and no signer |
| CompiledKeys.CompiledKeys.IntoMessageComponents | squads-client/src/message/compiled_keys.rs:62-115 | succeeds exactly when the signers and the readonly keys can each be counted by a byte; then every key's privileges are those read off its position |
| CompiledKeys.FourByKey | squads-client/src/message/compiled_keys.rs:59-61 | keys of the same privileges stand in key order, the payer aside |
| MessageCompiler.CompileInstructions | squads-client/src/message/mod.rs:202-205 | succeeds exactly when there are at most 256 keys and all are known; then every index points at its key |
| MessageCompiler.KeysPartition | squads-client/src/message/mod.rs:188-202 | static and loaded keys together are the referenced keys without repeats, and the static ones are the signers and what no table holds |
| MessageCompiler.StaticIs | squads-client/src/message/compiled_keys.rs:120-181 | the keys that must stay are the referenced ones that sign or are not among the first 256 addresses of any table |
| MessageCompiler.AssembledExecutes | squads-client/src/message/mod.rs:181-246 | on every chain with these tables the lookups resolve, privileges are exact, the vault is first and every instruction is the original |
| MessageCompiler.TryCompile | squads-client/src/message/mod.rs:181-246 | succeeds exactly when at most 256 keys are referenced and at most 255 must stay; then the message executes as the instructions, every key a table can take is left to it, and static keys of one class are in numeric order |
| Wire.SerializeSmallVec | squads-client/src/small_vec.rs:58-80 | writes the prefix and the items, or fails, as the nested encoding says |
| Wire.DeserializeSmallVec | squads-client/src/small_vec.rs:82-108 | reads the prefix and that many items, or fails, as the nested decoding says |
| Wire.VecInverse | squads-client/src/small_vec.rs:58-108 | if the item codec is exact in both directions so is the vector codec |
| Wire.InstructionInverse | squads-client/src/message/mod.rs:112-133 | a compiled instruction is read from exactly its own encoding followed by the rest |
| Wire.LookupInverse | squads-client/src/message/mod.rs:146-167 | a lookup is read from exactly its own encoding followed by the rest |
| Wire.MessageInverse | squads-client/src/message/mod.rs:67-98 | a message and a rest are read from exactly the message's encoding followed by the rest |
| Wire.EncodesIffFits | squads-client/src/small_vec.rs:58-80 | serialization succeeds exactly when every nested length fits its prefix |
| Wire.WireRoundTrip | squads-client/src/message/mod.rs:67-98 | what serializes decodes to itself, whatever bytes follow, and leaves exactly those |
| Wire.MessageLayout | squads-client/src/message/mod.rs:67-98 | the bytes of a message, written out field by field |
| Wire.InstructionLayout | squads-client/src/message/mod.rs:112-133 | the bytes of a compiled instruction, written out: indexes behind one length byte, data behind two |
| Wire.LookupLayout | squads-client/src/message/mod.rs:146-167 | the bytes of a lookup, written out |
| VaultTransaction.TryToVec | squads-client/src/instructions.rs:45-62 | the appends write the encoding with lengths cut to 32 bits |
| VaultTransaction.TryFromSlice | squads-client/src/instructions.rs:323-339 | the advancing reader computes the decoding |
| VaultTransaction.DecodesIff | squads-client/src/instructions.rs:323-339 | bytes decode to given arguments exactly when they begin with their encoding, the lengths fit and the memo is text |
| VaultTransaction.ArgsRoundTripIff | squads-client/src/instructions.rs:45-62 | arguments survive the trip exactly when neither length is truncated |
| VaultTransaction.ArgsLayout | squads-client/src/instructions.rs:45-62 | the bytes of the arguments, written out |
| VaultTransaction.LongMessageLost | squads-client/src/instructions.rs:49-51 | a message of 2^32 bytes decodes to an empty one without an error |
| VaultTransaction.CompiledFitsIff | squads-client/src/instructions.rs:125-128 | a compiled message serializes exactly when the instructions themselves fit |
| VaultTransaction.CreateInstruction | squads-client/src/instructions.rs:80-100 | the discriminator and then the arguments; each account at its place, only creator and rent payer signing, only multisig, transaction and rent payer written |
| VaultTransaction.MessageIsShort | squads-client/src/instructions.rs:49-51 | a message that serializes is never truncated |
| VaultTransaction.CreateFromInstructions | squads-client/src/instructions.rs:107-147 | an instruction results exactly when keys and inner instructions fit, and its data decodes, behind the discriminator, to this vault index and memo, no ephemeral signers, and a message that executes as the inner instructions |
| Routing.ScoreEntries | ncn-router/src/cron_job.rs:258-338 | every entry gets its status and reason, and the chosen slot is the highest verified one |
| Routing.ScoreIs | ncn-router/src/cron_job.rs:258-338 | verified exactly when there is no error and the chain names the same root and hash, an error exactly when the poll or the fetch failed |
| Routing.SameOriginIff | ncn-router/src/cron_job.rs:457-463 | two domains are one origin exactly when they are equal or one is the other with the slash it lacks |
| Routing.DemoteStaleVerifiers | ncn-router/src/cron_job.rs:430-448 | exactly the verified rows too far behind become stale, with the lag as the reason, in place |
| Routing.DedupeVerifiersByDomain | ncn-router/src/cron_job.rs:476-506 | one row per origin in first-seen order: its first verified row, or else its first |
| Routing.SelectRoutableVerifiers | ncn-router/src/router.rs:336-343 | one row per origin that has a verified row, and it is the first such row |
| Routing.DedupeKeepsSelection | ncn-router/src/cron_job.rs:465-475 | selecting after de-duplication gives the same rows as selecting directly |
| Routing.StillOkIffFresh | ncn-router/src/cron_job.rs:425-448 | a demoted row is still verified exactly when its entry is within the lag of the newest verified one |
| Routing.RoutableVerifiers | ncn-router/src/cron_job.rs:258-364 | one ticket for each origin with a fresh entry, namely its first fresh one, and some ticket exactly when any entry verified |
| Lifecycle.TimeMovesForward | frontend/src/lib/proposals.ts:138-243 | with the account fixed, later epochs or an arriving consensus result only move the status forward |
| Lifecycle.StepScheduled | svmgov/program/programs/svmgov_program/src/instructions/support_proposal.rs:219-303 | support, flush, finalization and time keep the schedule in order |
| Lifecycle.ShownForward | frontend/src/lib/proposals.ts:116-137 | over every run of the on-chain lifecycle the status never moves backwards and a final one stays |
| Lifecycle.ShownIff | frontend/src/lib/proposals.ts:138-243 | in every reachable state, exactly when each status is shown |
| Lifecycle.DiscussionThenFailed | frontend/src/lib/proposals.ts:212-234 | after any run, a proposal shown in discussion without the voting flag is shown as failed one epoch later |
| Lifecycle.DiscussionWithoutVoting | frontend/src/lib/proposals.ts:212-223 | there are such proposals |
| Lifecycle.ScheduleIsFinal | svmgov/program/programs/svmgov_program/src/instructions/flush_merkle_root.rs:55-62 | once voting has begun no further run changes window or snapshot |
| Lifecycle.SupportOutcome | svmgov/program/programs/svmgov_program/src/instructions/support_proposal.rs:84-104 | after any run support counts exactly in its window, and once it suffices voting starts an epoch after the discussion and snapshot phases and lasts votingEpochs |
| Lifecycle.PhasesAreLatest | frontend/src/lib/proposals.ts:80-115 | the phases derived from the creation epoch are the latest possible, reached when support suffices in the last epoch of its window |
| Lifecycle.FlushOutcome | svmgov/program/programs/svmgov_program/src/instructions/flush_merkle_root.rs:55-124 | a flush before the start counts the snapshot phase anew, and any other changes nothing |
| Lifecycle.ScheduleIsSet | svmgov/program/programs/svmgov_program/src/instructions/support_proposal.rs:219-268 | after any run the schedule of a vote goes back to sufficient support in its window or to such a flush |
| Lifecycle.FinalizedIfShown | svmgov/program/programs/svmgov_program/src/instructions/finalize_proposal.rs:16-40 | exactly the proposals shown as finalized can be finalized |
| VoteSplit.Clamp | frontend/src/hooks/useVoteDistribution.ts:21-23 | the result is the nearest percentage |
| VoteSplit.EditSets | frontend/src/hooks/useVoteDistribution.ts:25-43 | a text that reads as a percentage sets the share to it, as more to 100, as less or as no number to 0 |
| VoteSplit.AdjustDistribution | frontend/src/hooks/useVoteDistribution.ts:45-79 | the edited share is kept, the others only shrink, the earlier first, and an excess lands on exactly 100 |
| VoteSplit.AdjustsUnique | frontend/src/hooks/useVoteDistribution.ts:45-79 | that description leaves only one outcome |
| VoteSplit.EditIs | frontend/src/hooks/useVoteDistribution.ts:45-79 | the outcome of an edit in closed form, option by option |
| VoteSplit.EditBalances | frontend/src/hooks/useVoteDistribution.ts:45-79 | one edit brings any split without negative shares into balance |
| VoteSplit.VoteDistribution.HandleOptionChange | frontend/src/hooks/useVoteDistribution.ts:89-96 | an edit moves the state by the adjustment |
| VoteSplit.QuickSelectSets | frontend/src/hooks/useVoteDistribution.ts:98-104 | a quick selection gives everything to one option |
| VoteSplit.SessionBalanced | frontend/src/hooks/useVoteDistribution.ts:84-108 | every session from a balanced start stays balanced |

## Left out

- SHA-256, Ed25519, base58 and the program-derived addresses: the hash is a parameter, a signature's validity and the decoded bytes are inputs.
- Ledger replay, archives, account decoding, stake warm-up and stake pools: the active stake of each account, the pool wallets and the vote identities are inputs.
- gzip, files, HTTP, multipart extraction, metrics, rate limits, schedules, logging, JSON, and the router's query parsing and cache.
- Database: tables are maps, and a transaction commits or has no effect; created-at timestamps are not modelled.
- `fast_math::log2_raw`: taken as the exact integer logarithm.
- Error codes: a refused instruction is modelled as refused, without which of its errors it reports; `try_compile` and the upload statuses keep theirs.
- Account ownership and address checks of the on-chain handlers: the accounts passed in are the right ones.
- Support tallies and thresholds of a proposal: the re-measured total and the threshold are inputs of the support event in `Lifecycle`, and instructions refused for other reasons (slots, ballot box, overflow) are events that do not happen; the snapshot slot is an input of the support and flush events.
- Configuration changes by the administrators while a proposal or a ballot box is open.
- Tie breaker: `BallotBoxLaws.HonestBallotWins` and `WholeSystem.FromScanToTotals` are about results that came about by vote; the administrator may decide otherwise after expiry.
- Wire.SerializeSmallVec: bytes already written when a serialization fails are not modelled.
- VaultTransaction.TryFromSlice: whether bytes are text is a parameter.
- VaultTransaction.CreateFromInstructions: the eight bytes of the discriminator and the address of the system program are parameters.
- VoteSplit.VoteDistribution.HandleOptionChange: reading text as a number is a parameter.
- Lifecycle.TimeMovesForward: the required support at each epoch is a real-valued parameter; floating-point rounding is not modelled.
- Lifecycle.GetProposalPhaseEpochs: only the form without the on-chain anchors, which is the one the status uses.
- Routing.ScoreEntries: the wording of a row's reason is not modelled, only what it is made from; nor is the slot recorded for the whole whitelist.
- React components, query hooks, wallet signing and transaction submission.
