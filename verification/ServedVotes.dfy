/** The verifier service and the vote: what the service hands out is what the
    chain accepts. */
module ServedVotes {
  import opened Bytes
  import opened Hashing
  import opened Snapshot
  import opened Tables
  import opened Verifier
  import opened VerifierStore
  import opened VerifierLaws
  import opened Voting
  import opened VotingTheorems

  /** The ballot a validator builds from the vote row served for its account. */
  function BallotFromRow(voteAccount: Pubkey, row: VoteRow, epoch: nat, split: Split): Ballot
  {
    Ballot(row.votingWallet, epoch, voteAccount, split, MetaLeafOfRow(voteAccount, row), row.proof)
  }

  /** The override a delegator builds from the two rows served. */
  function OverrideFromRows(stakeAccount: Pubkey, row: StakeRow, voteRow: VoteRow, epoch: nat, split: Split): Tx
  {
    CastVoteOverride(BallotFromRow(row.voteAccount, voteRow, epoch, split).(signer := row.votingWallet),
                     Delegated(stakeAccount, StakeLeafOfRow(stakeAccount, row), row.proof))
  }

  /** The snapshot behind the rows: accepted, and with the recorded root. */
  ghost predicate Behind(h: Hasher, reqs: seq<Request>, network: string, slot: u64, data: SnapshotData)
  {
    var last := LastAccepted(TreesOf(h), reqs, network, slot);
    last.Some? && last.value.file.Some? && last.value.file.value.0 == data
  }

  lemma SnapshotBehind(h: Hasher, reqs: seq<Request>, key: RowKey, data: SnapshotData)
    requires key in StoreAfter(TreesOf(h), reqs).votes && Behind(h, reqs, key.0, key.1, data)
    ensures Valid(TreesOf(h), data) && Total(data.bundles) <= U64_MAX
    ensures var store := StoreAfter(TreesOf(h), reqs);
            (key.0, key.1) in store.metas && store.metas[(key.0, key.1)].merkleRoot == Base58(data.root)
  {
    hide TreesOf, StoreAfter, LastAccepted, Valid, Total, VoteEntries, StakeEntries, Holds;
    RowHasUpload(TreesOf(h), reqs, key);
  }

  /** Whatever was uploaded and whatever was voted before: a validator's vote made
      from the row the service holds is accepted exactly when the row has stake and
      the validator has not voted. */
  lemma ServedVoteAccepted(h: Hasher, e: Election, reqs: seq<Request>, key: RowKey, data: SnapshotData, txs: seq<Tx>,
                           epoch: nat, split: Split, s: set<Bytes>)
    requires key in StoreAfter(TreesOf(h), reqs).votes && Behind(h, reqs, key.0, key.1, data)
    requires e.root.Some? && (key.0, key.1) in StoreAfter(TreesOf(h), reqs).metas
    requires StoreAfter(TreesOf(h), reqs).metas[(key.0, key.1)].merkleRoot == Base58(e.root.value)
    requires var ballot := BallotFromRow(key.2, StoreAfter(TreesOf(h), reqs).votes[key], epoch, split);
             && Open(e, Run(h, e, txs), ballot) && Run(h, e, txs).voteCount < U32_MAX
             && Collisionless(h, data.bundles, txs + [CastVote(ballot)], s)
    ensures var row := StoreAfter(TreesOf(h), reqs).votes[key];
            Accepts(h, e, Run(h, e, txs), CastVote(BallotFromRow(key.2, row, epoch, split)))
            <==> row.activeStake > 0 && key.2 !in Run(h, e, txs).votes
  {
    hide TreesOf, StoreAfter, Run, Collisionless, Accepts, Open, Valid, Total, Verifies, LastAccepted;
    SnapshotBehind(h, reqs, key, data);
    ServedVoteProofVerifies(h, reqs, key);
    var ballot := BallotFromRow(key.2, StoreAfter(TreesOf(h), reqs).votes[key], epoch, split);
    EntitledIsAccepted(h, e, data, txs, CastVote(ballot), s);
  }

  /** And a delegator's override made from the rows is accepted exactly when its
      row has stake and it has not overridden. */
  lemma ServedOverrideAccepted(h: Hasher, e: Election, reqs: seq<Request>, key: RowKey, data: SnapshotData,
                               txs: seq<Tx>, epoch: nat, split: Split, s: set<Bytes>)
    requires key in StoreAfter(TreesOf(h), reqs).stakes && Behind(h, reqs, key.0, key.1, data)
    requires var store := StoreAfter(TreesOf(h), reqs);
             var voteKey := (key.0, key.1, store.stakes[key].voteAccount);
             && voteKey in store.votes && e.root.Some? && (key.0, key.1) in store.metas
             && store.metas[(key.0, key.1)].merkleRoot == Base58(e.root.value)
             && var tx := OverrideFromRows(key.2, store.stakes[key], store.votes[voteKey], epoch, split);
             && Open(e, Run(h, e, txs), tx.ballot) && Run(h, e, txs).voteCount < U32_MAX
             && Collisionless(h, data.bundles, txs + [tx], s)
    ensures var store := StoreAfter(TreesOf(h), reqs);
            var row := store.stakes[key];
            var tx := OverrideFromRows(key.2, row, store.votes[(key.0, key.1, row.voteAccount)], epoch, split);
            Accepts(h, e, Run(h, e, txs), tx)
            <==> row.activeStake > 0 && (key.2, row.voteAccount) !in Run(h, e, txs).overrides
  {
    hide TreesOf, StoreAfter, Run, Collisionless, Accepts, Open, Valid, Total, Verifies, LastAccepted;
    var store := StoreAfter(TreesOf(h), reqs);
    var row := store.stakes[key];
    var voteKey := (key.0, key.1, row.voteAccount);
    SnapshotBehind(h, reqs, voteKey, data);
    ServedVoteProofVerifies(h, reqs, voteKey);
    ServedStakeProofVerifies(h, reqs, key);
    EntitledIsAccepted(h, e, data, txs, OverrideFromRows(key.2, row, store.votes[voteKey], epoch, split), s);
  }
}
