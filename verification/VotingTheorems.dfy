/** The tally against the hashes: over every run of transactions, for every
    snapshot the verifier accepts, only proved leaves count, each lamport counts
    at most once, and no entitled voter is turned away by the arithmetic. */
module VotingTheorems {
  import opened Bytes
  import opened Hashing
  import opened MerkleProofs
  import opened MapSums
  import opened Snapshot
  import opened SnapshotLaws
  import opened Verifier
  import opened VerifierStore
  import opened VerifierLaws
  import opened Voting
  import opened VotingLaws
  import opened VotingRuns

  // ----- one step

  lemma NextKeeps(bundles: seq<Bundle>, ledger: Ledger, tx: Tx)
    requires Coherent(bundles) && Invariant(bundles, ledger) && Authentic(bundles, tx) && InOrder(ledger, tx)
    ensures Subtractable(ledger, tx) && Invariant(bundles, Next(ledger, tx))
  {
    hide Coherent, Invariant, Subtractable;
    NoUnderflow(bundles, ledger, tx);
    match tx
    case CastVote(b) => CastVoteKeeps(bundles, ledger, b);
    case ModifyVote(b) => ModifyVoteKeeps(bundles, ledger, b);
    case CastVoteOverride(b, del) => CastVoteOverrideKeeps(bundles, ledger, b, del);
    case ModifyVoteOverride(b, del) => ModifyVoteOverrideKeeps(bundles, ledger, b, del);
    case FinalizeProposal(_) => FinalizeKeeps(bundles, ledger);
  }

  lemma FinalizeKeeps(bundles: seq<Bundle>, ledger: Ledger)
    requires Invariant(bundles, ledger)
    ensures Invariant(bundles, ledger.(finalized := true))
  {
    hide WSum, BundleOf, LeafFor, Weigh;
    var next := ledger.(finalized := true);
    forall v | v !in next.votes ensures CacheAgrees(next, v) {
      assert CacheAgrees(ledger, v);
    }
  }

  /** A cache never holds more than the totals do. */
  lemma CacheBelowTotals(ledger: Ledger, v: Pubkey)
    requires TotalsAgree(ledger) && CacheAgrees(ledger, v)
    ensures ledger.totals.Covers(CacheOf(ledger, v).lamports)
  {
    hide WSum, CacheOf;
    var c := CacheOf(ledger, v).lamports;
    forall side ensures On(c, side) <= On(ledger.totals, side) {
      var w := Within(OverrideOn(side), VoteAccountOf, v);
      forall k | k in ledger.overrides ensures w(k, ledger.overrides[k]) <= OverrideOn(side)(k, ledger.overrides[k]) {
        OverrideWeights(k, ledger.overrides[k], v);
      }
      WSumBelow(ledger.overrides, w, OverrideOn(side));
    }
    assert On(c, Yes) <= On(ledger.totals, Yes);
    assert On(c, No) <= On(ledger.totals, No);
    assert On(c, Abstain) <= On(ledger.totals, Abstain);
  }

  lemma CacheInRange(bundles: seq<Bundle>, ledger: Ledger, v: Pubkey)
    requires Coherent(bundles) && Invariant(bundles, ledger) && ledger.totals.Fits()
    requires v !in ledger.votes && BundleOf(bundles, v).Some?
    ensures CacheFits(CacheOf(ledger, v))
  {
    hide Coherent, WSum, BundleOf, TotalsAgree, OverridesAgree, CacheOf;
    assert CacheAgrees(ledger, v);
    CacheBelowTotals(ledger, v);
    OverriddenBound(bundles, ledger.overrides, v);
  }

  /** The two instructions that add to the 32-bit counter. */
  predicate Counts(tx: Tx) { tx.CastVote? || tx.CastVoteOverride? }

  /** The checked arithmetic fails only when the vote counter is full. */
  lemma ComputableIff(bundles: seq<Bundle>, ledger: Ledger, tx: Tx)
    requires Coherent(bundles) && Total(bundles) <= U64_MAX
    requires Invariant(bundles, ledger) && Authentic(bundles, tx) && InOrder(ledger, tx)
    ensures Computable(ledger, tx) <==> (Counts(tx) ==> ledger.voteCount < U32_MAX)
  {
    hide Coherent, Invariant, Total, BundleOf, LeafFor, Weigh, CacheOf;
    NextKeeps(bundles, ledger, tx);
    var next := Next(ledger, tx);
    TotalsWithinStake(bundles, next);
    assert next.totals.Fits();
    if (tx.CastVoteOverride? || tx.ModifyVoteOverride?) && tx.ballot.voteAccount !in ledger.votes {
      CacheInRange(bundles, next, tx.ballot.voteAccount);
    }
  }

  lemma EntitledInOrder(h: Hasher, e: Election, ledger: Ledger, tx: Tx)
    requires Entitled(h, e, ledger, tx)
    ensures InOrder(ledger, tx)
  {
    hide Verifies;
  }

  // ----- the order of events does not matter

  /** Who voted how, without any amounts. */
  predicate SameChoices(a: Ledger, b: Ledger)
  {
    && a.votes.Keys == b.votes.Keys && (forall v :: v in a.votes ==> a.votes[v].split == b.votes[v].split)
    && a.overrides.Keys == b.overrides.Keys
       && (forall k :: k in a.overrides ==> a.overrides[k].split == b.overrides[k].split)
  }

  lemma ChoicesFixOverrides(bundles: seq<Bundle>, m: map<OverrideKey, Override>, n: map<OverrideKey, Override>)
    requires OverridesAgree(bundles, m) && OverridesAgree(bundles, n)
    requires m.Keys == n.Keys && forall k :: k in m ==> m[k].split == n[k].split
    ensures forall k :: k in m ==> m[k].stake == n[k].stake && m[k].lamports == n[k].lamports
  {
    hide BundleOf, LeafFor, Weigh;
    forall k | k in m ensures m[k].stake == n[k].stake && m[k].lamports == n[k].lamports {
      assert OverrideAgrees(bundles, k, m[k]) && OverrideAgrees(bundles, k, n[k]);
    }
  }

  lemma SameOverridden(m: map<OverrideKey, Override>, n: map<OverrideKey, Override>, v: Pubkey)
    requires m.Keys == n.Keys && forall k :: k in m ==> m[k].stake == n[k].stake
    ensures OverriddenStake(m, v) == OverriddenStake(n, v)
  {
    hide WSum;
    var w := Within(OverrideStake, VoteAccountOf, v);
    forall k | k in m ensures w(k, m[k]) == w(k, n[k]) {
      OverrideWeights(k, m[k], v);
      OverrideWeights(k, n[k], v);
    }
    WSumAgree(m, n, w);
  }

  /** The totals depend only on the choices that stand: not on the order in which
      votes and overrides came in, nor on what anyone chose before. */
  lemma TotalsDeterminedByChoices(bundles: seq<Bundle>, a: Ledger, b: Ledger)
    requires Invariant(bundles, a) && Invariant(bundles, b) && SameChoices(a, b)
    ensures a.totals == b.totals
  {
    hide WSum, BundleOf, LeafFor, Weigh, CachesAgree, OverridesAgree;
    ChoicesFixOverrides(bundles, a.overrides, b.overrides);
    forall v | v in a.votes ensures a.votes[v].lamports == b.votes[v].lamports {
      assert VoteAgrees(bundles, a.overrides, v, a.votes[v]) && VoteAgrees(bundles, b.overrides, v, b.votes[v]);
      SameOverridden(a.overrides, b.overrides, v);
    }
    forall side ensures On(a.totals, side) == On(b.totals, side) {
      WSumAgree(a.votes, b.votes, VoteOn(side));
      WSumAgree(a.overrides, b.overrides, OverrideOn(side));
    }
    assert On(a.totals, Yes) == On(b.totals, Yes) && On(a.totals, No) == On(b.totals, No);
    assert On(a.totals, Abstain) == On(b.totals, Abstain);
  }

  // ----- proofs are genuine

  /** Every string hashed while building the snapshot is in `s`. */
  ghost predicate Hashed(h: Hasher, bundles: seq<Bundle>, s: set<Bytes>)
  {
    && TreeInputs(h, true, MetaItems(h, Metas(bundles))) <= s
    && (forall i :: 0 <= i < |bundles| ==> MetaContent(bundles[i].meta) in s)
    && (forall i :: 0 <= i < |bundles| ==> StakesHashed(h, bundles[i].stakes, s))
  }

  ghost predicate StakesHashed(h: Hasher, stakes: seq<StakeLeaf>, s: set<Bytes>)
  {
    && TreeInputs(h, true, StakeItems(h, stakes)) <= s
    && (forall j :: 0 <= j < |stakes| ==> StakeContent(stakes[j]) in s)
  }

  /** Every string hashed while checking a transaction. */
  ghost function MetaInputs(h: Hasher, b: Ballot): set<Bytes>
  {
    {MetaContent(b.meta)} + VerifyInputs(h, h(MetaContent(b.meta)), b.metaProof)
  }

  ghost function StakeInputs(h: Hasher, del: Delegated): set<Bytes>
  {
    {StakeContent(del.leaf)} + VerifyInputs(h, h(StakeContent(del.leaf)), del.stakeProof)
  }

  ghost function TxInputs(h: Hasher, tx: Tx): set<Bytes>
  {
    match tx
    case CastVote(b) => MetaInputs(h, b)
    case ModifyVote(b) => MetaInputs(h, b)
    case CastVoteOverride(b, del) => MetaInputs(h, b) + StakeInputs(h, del)
    case ModifyVoteOverride(b, del) => MetaInputs(h, b) + StakeInputs(h, del)
    case FinalizeProposal(_) => {}
  }

  lemma RootPresent(h: Hasher, items: seq<Bytes>)
    requires items != []
    ensures Root(h, true, items).Some?
  {
  }

  lemma PartsInjective(a: Bytes, b: Bytes, c: Bytes, d: Bytes)
    requires |a| == |c| && a + b == c + d
    ensures a == c && b == d
  {
    assert (a + b)[..|a|] == a && (a + b)[|a|..] == b;
    assert (c + d)[..|c|] == c && (c + d)[|c|..] == d;
  }

  lemma MetaContentInjective(a: MetaLeaf, b: MetaLeaf)
    requires MetaContent(a) == MetaContent(b)
    ensures a == b
  {
    hide LittleEndian;
    var x, y := LittleEndian(a.activeStake, 8), LittleEndian(b.activeStake, 8);
    PartsInjective(a.votingWallet + a.voteAccount + a.stakeRoot, x, b.votingWallet + b.voteAccount + b.stakeRoot, y);
    PartsInjective(a.votingWallet + a.voteAccount, a.stakeRoot, b.votingWallet + b.voteAccount, b.stakeRoot);
    PartsInjective(a.votingWallet, a.voteAccount, b.votingWallet, b.voteAccount);
    LittleEndianInjective(a.activeStake, b.activeStake, 8);
  }

  lemma StakeContentInjective(a: StakeLeaf, b: StakeLeaf)
    requires StakeContent(a) == StakeContent(b)
    ensures a == b
  {
    hide LittleEndian;
    var x, y := LittleEndian(a.activeStake, 8), LittleEndian(b.activeStake, 8);
    PartsInjective(a.votingWallet + a.stakeAccount, x, b.votingWallet + b.stakeAccount, y);
    PartsInjective(a.votingWallet, a.stakeAccount, b.votingWallet, b.stakeAccount);
    LittleEndianInjective(a.activeStake, b.activeStake, 8);
  }

  /** A meta proof is accepted exactly when the leaf is in the snapshot and the
      proof is that leaf's own. */
  lemma MetaProvedIff(h: Hasher, e: Election, data: SnapshotData, b: Ballot, s: set<Bytes>)
    requires RootMatches(TreesOf(h), data) && e.root == Some(data.root)
    requires CollisionFreeOn(h, s) && Hashed(h, data.bundles, s) && MetaInputs(h, b) <= s
    ensures MetaProved(h, e, b)
            <==> b.meta.voteAccount == b.voteAccount
                 && exists i: nat :: i < |data.bundles| && data.bundles[i].meta == b.meta
                                     && b.metaProof == TreesOf(h).metaProof((Metas(data.bundles), i))
  {
    hide Verifies, TreeInputs, VerifyInputs, ProofOf, Root, MetaContent;
    var metas := Metas(data.bundles);
    var items := MetaItems(h, metas);
    AcceptedIffGenuine(h, items, h(MetaContent(b.meta)), b.metaProof, s);
    RootPresent(h, items);
    forall i: nat | i < |items|
      ensures items[i] == h(MetaContent(b.meta)) <==> data.bundles[i].meta == b.meta
    {
      assert metas[i] == MetaOf(data.bundles[i]);
      assert items[i] == MetaHasher(h)(metas[i]);
      if items[i] == h(MetaContent(b.meta)) {
        MetaContentInjective(data.bundles[i].meta, b.meta);
      }
    }
  }

  /** A stake proof is accepted exactly when the leaf is in the stake tree and
      the proof is that leaf's own. */
  lemma StakeProvedIff(h: Hasher, stakes: seq<StakeLeaf>, del: Delegated, s: set<Bytes>)
    requires stakes != []
    requires CollisionFreeOn(h, s) && StakesHashed(h, stakes, s) && StakeInputs(h, del) <= s
    ensures Verifies(h, h(StakeContent(del.leaf)), del.stakeProof, TreesOf(h).stakeRoot(stakes))
            <==> exists j: nat :: j < |stakes| && stakes[j] == del.leaf
                                  && del.stakeProof == TreesOf(h).stakeProof((stakes, j))
  {
    hide Verifies, TreeInputs, VerifyInputs, ProofOf, Root, StakeContent;
    var items := StakeItems(h, stakes);
    AcceptedIffGenuine(h, items, h(StakeContent(del.leaf)), del.stakeProof, s);
    RootPresent(h, items);
    forall j: nat | j < |items|
      ensures items[j] == h(StakeContent(del.leaf)) <==> stakes[j] == del.leaf
    {
      assert items[j] == h(StakeContent(stakes[j]));
      if items[j] == h(StakeContent(del.leaf)) {
        StakeContentInjective(stakes[j], del.leaf);
      }
    }
  }

  /** An entitled transaction presents leaves of the snapshot. */
  lemma EntitledIsAuthentic(h: Hasher, e: Election, data: SnapshotData, ledger: Ledger, tx: Tx, s: set<Bytes>)
    requires Valid(TreesOf(h), data) && e.root == Some(data.root)
    requires CollisionFreeOn(h, s) && Hashed(h, data.bundles, s) && TxInputs(h, tx) <= s
    requires Entitled(h, e, ledger, tx)
    ensures Authentic(data.bundles, tx)
  {
    hide Valid, Hashed, MetaInputs, StakeInputs, Verifies, MetaKnown, LeafKnown, TreesOf, Whole;
    match tx
    case CastVote(b) => MetaIsKnown(h, e, data, b, s);
    case ModifyVote(b) => MetaIsKnown(h, e, data, b, s);
    case CastVoteOverride(b, del) => LeafIsKnown(h, e, data, b, del, s);
    case ModifyVoteOverride(b, del) => LeafIsKnown(h, e, data, b, del, s);
    case FinalizeProposal(_) =>
  }

  lemma MetaIsKnown(h: Hasher, e: Election, data: SnapshotData, b: Ballot, s: set<Bytes>)
    requires Valid(TreesOf(h), data) && e.root == Some(data.root)
    requires CollisionFreeOn(h, s) && Hashed(h, data.bundles, s) && MetaInputs(h, b) <= s
    requires MetaProved(h, e, b)
    ensures MetaKnown(data.bundles, b)
  {
    hide Hashed, MetaInputs, TreesOf, MetaProved, BundleOf, StakeRootsMatch, RootMatches, AllStakes, TotalStake;
    MetaProvedIff(h, e, data, b, s);
    var i: nat :| i < |data.bundles| && data.bundles[i].meta == b.meta;
    BundleOfAt(data.bundles, i);
    assert VoteKey(data.bundles[i]) == b.voteAccount;
  }

  lemma LeafIsKnown(h: Hasher, e: Election, data: SnapshotData, b: Ballot, del: Delegated, s: set<Bytes>)
    requires Valid(TreesOf(h), data) && e.root == Some(data.root)
    requires CollisionFreeOn(h, s) && Hashed(h, data.bundles, s) && MetaInputs(h, b) <= s && StakeInputs(h, del) <= s
    requires DelegatorProved(h, e, b, del)
    ensures LeafKnown(data.bundles, b, del)
  {
    hide StakesHashed, MetaInputs, StakeInputs, Verifies, TreesOf, MetaProved, BundleOf, RootMatches, Coherent, LeafFor;
    MetaIsKnown(h, e, data, b, s);
    var i := BundleOfIn(data.bundles, b.voteAccount);
    var stakes := data.bundles[i].stakes;
    StakeProvedIff(h, stakes, del, s);
    var j: nat :| j < |stakes| && stakes[j] == del.leaf;
    DistinctInBundle(data.bundles, i);
    LeafForAt(stakes, j);
    assert StakeKey(stakes[j]) == del.stakeAccount;
  }

  // ----- every run

  function Run(h: Hasher, e: Election, txs: seq<Tx>): Ledger
  {
    if txs == [] then INITIAL else Step(h, e, Run(h, e, txs[..|txs| - 1]), txs[|txs| - 1])
  }

  /** No collision among the strings hashed for the snapshot and for the transactions. */
  ghost predicate Collisionless(h: Hasher, bundles: seq<Bundle>, txs: seq<Tx>, s: set<Bytes>)
  {
    CollisionFreeOn(h, s) && Hashed(h, bundles, s) && forall i :: 0 <= i < |txs| ==> TxInputs(h, txs[i]) <= s
  }

  /** Whatever transactions arrive, in whatever order, accepted or refused: the
      books balance, no more is counted than the snapshot's stake, and no less than
      the stake that takes part, but for rounding. */
  lemma {:induction false} EveryRunBalances(h: Hasher, e: Election, data: SnapshotData, txs: seq<Tx>, s: set<Bytes>)
    requires Valid(TreesOf(h), data) && e.root == Some(data.root)
    requires Collisionless(h, data.bundles, txs, s)
    ensures Invariant(data.bundles, Run(h, e, txs))
    ensures Run(h, e, txs).totals.Size() <= Total(data.bundles)
    ensures var ledger := Run(h, e, txs);
            Participating(data.bundles, ledger) <= ledger.totals.Size() + 2 * ledger.voteCount
  {
    hide Invariant, Coherent, CollisionFreeOn, Hashed, TxInputs, Authentic, InOrder, Entitled, Computable, Next,
         StakeRootsMatch, RootMatches, TreesOf, Total, Participating;
    if txs == [] {
      InitialInvariant(data.bundles);
    } else {
      var n := |txs| - 1;
      EveryRunBalances(h, e, data, txs[..n], s);
      var ledger := Run(h, e, txs[..n]);
      if Accepts(h, e, ledger, txs[n]) {
        EntitledIsAuthentic(h, e, data, ledger, txs[n], s);
        EntitledInOrder(h, e, ledger, txs[n]);
        NextKeeps(data.bundles, ledger, txs[n]);
      }
    }
    TotalsWithinStake(data.bundles, Run(h, e, txs));
    TotalsUpToRounding(data.bundles, Run(h, e, txs));
  }

  /** After any run, an entitled transaction goes through, unless it would be
      vote number 2^32: no checked sum or difference ever stops it. */
  lemma EntitledIsAccepted(h: Hasher, e: Election, data: SnapshotData, txs: seq<Tx>, tx: Tx, s: set<Bytes>)
    requires Valid(TreesOf(h), data) && e.root == Some(data.root) && Total(data.bundles) <= U64_MAX
    requires Collisionless(h, data.bundles, txs + [tx], s)
    ensures Accepts(h, e, Run(h, e, txs), tx)
            <==> Entitled(h, e, Run(h, e, txs), tx) && (Counts(tx) ==> Run(h, e, txs).voteCount < U32_MAX)
  {
    hide Invariant, Coherent, CollisionFreeOn, Hashed, TxInputs, Authentic, InOrder, Computable, Run,
         StakeRootsMatch, RootMatches, TreesOf, Total, Verifies;
    var all := txs + [tx];
    assert forall i :: 0 <= i < |txs| ==> all[i] == txs[i];
    assert all[|txs|] == tx;
    EveryRunBalances(h, e, data, txs, s);
    var ledger := Run(h, e, txs);
    if Entitled(h, e, ledger, tx) {
      EntitledIsAuthentic(h, e, data, ledger, tx, s);
      EntitledInOrder(h, e, ledger, tx);
      ComputableIff(data.bundles, ledger, tx);
    }
  }

  /** The ballot of validator `i`, with the proof that goes with its leaf. */
  function BallotOf(h: Hasher, bundles: seq<Bundle>, i: nat, epoch: nat, split: Split): Ballot
    requires i < |bundles|
  {
    var meta := bundles[i].meta;
    Ballot(meta.votingWallet, epoch, meta.voteAccount, split, meta, TreesOf(h).metaProof((Metas(bundles), i)))
  }

  /** Any delegator's ballot under vote account `i`: the meta leaf with its proof,
      and the delegator's own leaf with its proof. */
  function OverrideOf(h: Hasher, bundles: seq<Bundle>, i: nat, j: nat, epoch: nat, split: Split): Tx
    requires i < |bundles| && j < |bundles[i].stakes|
  {
    var leaf := bundles[i].stakes[j];
    CastVoteOverride(BallotOf(h, bundles, i, epoch, split).(signer := leaf.votingWallet),
                     Delegated(leaf.stakeAccount, leaf, TreesOf(h).stakeProof((bundles[i].stakes, j))))
  }

  /** After any run, while voting is open, every validator of the snapshot with
      stake can vote once, and every delegator with stake can override once. */
  lemma EveryoneCanVote(h: Hasher, e: Election, data: SnapshotData, txs: seq<Tx>, i: nat, j: nat, epoch: nat,
                        split: Split, s: set<Bytes>)
    requires Valid(TreesOf(h), data) && e.root == Some(data.root) && Total(data.bundles) <= U64_MAX
    requires i < |data.bundles| && j < |data.bundles[i].stakes|
    requires Open(e, Run(h, e, txs), BallotOf(h, data.bundles, i, epoch, split)) && Run(h, e, txs).voteCount < U32_MAX
    requires Collisionless(h, data.bundles, txs + [CastVote(BallotOf(h, data.bundles, i, epoch, split))], s)
    requires Collisionless(h, data.bundles, txs + [OverrideOf(h, data.bundles, i, j, epoch, split)], s)
    ensures Accepts(h, e, Run(h, e, txs), CastVote(BallotOf(h, data.bundles, i, epoch, split)))
            <==> data.bundles[i].meta.activeStake > 0 && VoteKey(data.bundles[i]) !in Run(h, e, txs).votes
    ensures var leaf := data.bundles[i].stakes[j];
            Accepts(h, e, Run(h, e, txs), OverrideOf(h, data.bundles, i, j, epoch, split))
            <==> leaf.activeStake > 0 && (leaf.stakeAccount, VoteKey(data.bundles[i])) !in Run(h, e, txs).overrides
  {
    hide Run, Collisionless, Accepts, Coherent, Total;
    var vote, override := CastVote(BallotOf(h, data.bundles, i, epoch, split)),
        OverrideOf(h, data.bundles, i, j, epoch, split);
    EntitledIsAccepted(h, e, data, txs, vote, s);
    EntitledIsAccepted(h, e, data, txs, override, s);
    OwnProofs(h, e, data, i, j, epoch, split);
  }

  lemma OwnProofs(h: Hasher, e: Election, data: SnapshotData, i: nat, j: nat, epoch: nat, split: Split)
    requires Valid(TreesOf(h), data) && e.root == Some(data.root)
    requires i < |data.bundles| && j < |data.bundles[i].stakes|
    ensures MetaProved(h, e, BallotOf(h, data.bundles, i, epoch, split))
    ensures var del := OverrideOf(h, data.bundles, i, j, epoch, split).del;
            Verifies(h, h(StakeContent(del.leaf)), del.stakeProof, data.bundles[i].meta.stakeRoot)
  {
    hide Verifies, TreesOf, Coherent, MetaContent, StakeContent;
    var metas, stakes := Metas(data.bundles), data.bundles[i].stakes;
    MetaProofVerifies(h, metas, i);
    StakeProofVerifies(h, stakes, j);
    assert metas[i] == MetaOf(data.bundles[i]);
  }

  /** Two runs that leave the same choices standing publish the same totals. */
  lemma OrderIrrelevant(h: Hasher, e: Election, data: SnapshotData, txs: seq<Tx>, txs': seq<Tx>, s: set<Bytes>)
    requires Valid(TreesOf(h), data) && e.root == Some(data.root)
    requires Collisionless(h, data.bundles, txs, s) && Collisionless(h, data.bundles, txs', s)
    requires SameChoices(Run(h, e, txs), Run(h, e, txs'))
    ensures Run(h, e, txs).totals == Run(h, e, txs').totals
  {
    hide Valid, Run, Collisionless, TreesOf, SameChoices, Invariant;
    EveryRunBalances(h, e, data, txs, s);
    EveryRunBalances(h, e, data, txs', s);
    TotalsDeterminedByChoices(data.bundles, Run(h, e, txs), Run(h, e, txs'));
  }

  /** Once finalized, nothing changes any more. */
  lemma {:induction false} FinalizedIsFrozen(h: Hasher, e: Election, txs: seq<Tx>, more: seq<Tx>)
    requires Run(h, e, txs).finalized
    ensures Run(h, e, txs + more) == Run(h, e, txs)
  {
    hide Computable, Verifies, Next;
    if more == [] {
      assert txs + more == txs;
    } else {
      var n := |more| - 1;
      FinalizedIsFrozen(h, e, txs, more[..n]);
      assert (txs + more)[..|txs| + n] == txs + more[..n];
    }
  }
}
