/** From the stake accounts of the bank to the published totals: operators
    generate, agree and the chain counts. */
module WholeSystem {
  import opened Bytes
  import opened Hashing
  import opened Sorting
  import opened Snapshot
  import opened Verifier
  import opened VerifierStore
  import opened Generate
  import opened GenerateLaws
  import opened Voting
  import opened VotingLaws
  import opened VotingTheorems
  import opened VotingChoices
  import opened Interplay
  import L = Lifecycle
  import BB = BallotBox
  import BL = BallotBoxLaws

  function GeneratedData(h: Hasher, bank: Bank, scan: seq<ScannedAccount>): SnapshotData
  {
    var bundles := BundlesOf(TreesOf(h), bank, scan);
    SnapshotData(TreesOf(h).metaRoot(Metas(bundles)), bundles, bank.slot)
  }

  /** The ballot of an operator that generated from `scan`; `fileHash` is the hash
      of the serialized snapshot. */
  function BallotFor(h: Hasher, fileHash: SnapshotData -> Bytes32, bank: Bank, scan: seq<ScannedAccount>): BB.Ballot
  {
    var data := GeneratedData(h, bank, scan);
    BB.Ballot(data.root, fileHash(data))
  }

  /** Each honest operator votes for what it generated itself, having met the
      accounts in an order of its own. */
  ghost predicate Generates(honest: set<BB.Pubkey>, events: seq<BB.Event>, h: Hasher, fileHash: SnapshotData -> Bytes32,
                            bank: Bank, scan: seq<ScannedAccount>)
  {
    forall i :: 0 <= i < |events| && events[i].CastVote? && events[i].operator in honest ==>
      GeneratedFrom(h, fileHash, bank, scan, events[i].ballot)
  }

  ghost predicate GeneratedFrom(h: Hasher, fileHash: SnapshotData -> Bytes32, bank: Bank, scan: seq<ScannedAccount>,
                                ballot: BB.Ballot)
  {
    exists own: seq<ScannedAccount> :: multiset(own) == multiset(scan) && ballot == BallotFor(h, fileHash, bank, own)
  }

  lemma SameBallot(h: Hasher, fileHash: SnapshotData -> Bytes32, bank: Bank, scan: seq<ScannedAccount>,
                   ballot: BB.Ballot)
    requires DistinctKeys(AccountKey, scan) && TotalsFit(bank, scan)
    requires GeneratedFrom(h, fileHash, bank, scan, ballot)
    ensures ballot == BallotFor(h, fileHash, bank, scan)
  {
    hide BundlesOf, TotalsFit, TreesOf;
    var own :| multiset(own) == multiset(scan) && ballot == BallotFor(h, fileHash, bank, own);
    ScanOrderIrrelevant(TreesOf(h), bank, scan, own);
  }

  /** While the other operators cannot reach the threshold by themselves, a result
      that came about by vote is the generated root. */
  lemma AgreedRoot(terms: BB.Terms, honest: set<BB.Pubkey>, events: seq<BB.Event>, h: Hasher,
                   fileHash: SnapshotData -> Bytes32, bank: Bank, scan: seq<ScannedAccount>)
    requires DistinctKeys(AccountKey, scan) && TotalsFit(bank, scan)
             && Generates(honest, events, h, fileHash, bank, scan)
    requires !BB.Reaches(terms, |BL.Voters(terms) - honest|)
    requires BB.Run(terms, events).result.Some? && !BB.Run(terms, events).result.value.1
    ensures BB.Run(terms, events).result.value.0 == BallotFor(h, fileHash, bank, scan)
  {
    hide BB.Run, TotalsFit, BallotFor, GeneratedFrom, BB.Reaches;
    forall i | 0 <= i < |events| && events[i].CastVote? && events[i].operator in honest
      ensures events[i].ballot == BallotFor(h, fileHash, bank, scan)
    {
      SameBallot(h, fileHash, bank, scan, events[i].ballot);
    }
    BL.HonestBallotWins(terms, honest, BallotFor(h, fileHash, bank, scan), events);
  }

  /** For every set of stake accounts, every behaviour of operators too few to reach
      the threshold, and everything that can happen to the proposal, the ballot
      boxes and the votes, in any order: the books balance against the generated
      snapshot, what is published never exceeds the stake scanned, and it falls
      short of the stake that takes part only by rounding. */
  lemma FromScanToTotals(rules: Rules, epoch: nat, xs: seq<Happening>, honest: set<BB.Pubkey>,
                         fileHash: SnapshotData -> Bytes32, bank: Bank, scan: seq<ScannedAccount>, s: set<Bytes>)
    requires DistinctKeys(AccountKey, scan) && TotalsFit(bank, scan) && Generate.Voters(scan) != {}
    requires var w := Unfold(rules, epoch, xs);
             var slot := w.chain.proposal.snapshotSlot;
             && ByVoteOfHonest(rules, w, slot, honest, fileHash, bank, scan)
             && Collisionless(rules.h, BundlesOf(TreesOf(rules.h), bank, scan), w.counted, s)
    ensures var ledger := Unfold(rules, epoch, xs).ledger;
            && VotingLaws.Invariant(BundlesOf(TreesOf(rules.h), bank, scan), ledger)
            && ledger.totals.Size() <= Sum(Map(CountedStake, scan))
            && Participating(BundlesOf(TreesOf(rules.h), bank, scan), ledger)
               <= ledger.totals.Size() + 2 * ledger.voteCount
  {
    hide Unfold, BB.Run, TotalsFit, Run, VotingLaws.Invariant, Collisionless, BundlesOf, TreesOf, Valid,
         Generate.Voters, Sum, Total, ByVoteOfHonest, L.Scheduled, L.Begun, OnlyFinalize, ElectionOf, Participating;
    var w := Unfold(rules, epoch, xs);
    var data, e := GeneratedData(rules.h, bank, scan), ElectionOf(rules, w);
    OneElection(rules, epoch, xs);
    FreshPasses(TreesOf(rules.h), bank, scan);
    StakeConserved(TreesOf(rules.h), bank, scan);
    if e.root.None? {
      RootIrrelevant(rules.h, e, Some(data.root), w.counted);
    } else {
      ElectedRoot(rules, w, honest, fileHash, bank, scan);
    }
    assert e.(root := Some(data.root)).root == Some(data.root);
    EveryRunBalances(rules.h, e.(root := Some(data.root)), data, w.counted, s);
  }

  /** And what is published is what the last words are worth, against the generated
      snapshot: each validator's stake without what its delegators moved, and each
      delegator's own, divided as last chosen. */
  lemma PublishedIsWorth(rules: Rules, epoch: nat, xs: seq<Happening>, honest: set<BB.Pubkey>,
                         fileHash: SnapshotData -> Bytes32, bank: Bank, scan: seq<ScannedAccount>, s: set<Bytes>)
    requires DistinctKeys(AccountKey, scan) && TotalsFit(bank, scan) && Generate.Voters(scan) != {}
    requires Sum(Map(CountedStake, scan)) <= U64_MAX
    requires var w := Unfold(rules, epoch, xs);
             && ByVoteOfHonest(rules, w, w.chain.proposal.snapshotSlot, honest, fileHash, bank, scan)
             && Collisionless(rules.h, BundlesOf(TreesOf(rules.h), bank, scan), w.counted, s)
    ensures var w, bundles := Unfold(rules, epoch, xs), BundlesOf(TreesOf(rules.h), bank, scan);
            var e := ElectionOf(rules, w).(root := Some(GeneratedData(rules.h, bank, scan).root));
            var c := ChoicesAfter(TreesOf(rules.h), e, bundles, w.counted);
            && Records(w.ledger, c)
            && w.ledger.totals.yes == Worth(bundles, c, Yes)
            && w.ledger.totals.no == Worth(bundles, c, No)
            && w.ledger.totals.abstain == Worth(bundles, c, Abstain)
  {
    hide Unfold, BB.Run, TotalsFit, Run, Collisionless, BundlesOf, TreesOf, Valid, Generate.Voters, Sum, Total,
         ByVoteOfHonest, L.Scheduled, L.Begun, OnlyFinalize, ElectionOf, ChoicesAfter, Records, Worth;
    var w := Unfold(rules, epoch, xs);
    var data, e := GeneratedData(rules.h, bank, scan), ElectionOf(rules, w);
    OneElection(rules, epoch, xs);
    FreshPasses(TreesOf(rules.h), bank, scan);
    StakeConserved(TreesOf(rules.h), bank, scan);
    if e.root.None? {
      RootIrrelevant(rules.h, e, Some(data.root), w.counted);
    } else {
      ElectedRoot(rules, w, honest, fileHash, bank, scan);
    }
    assert e.(root := Some(data.root)).root == Some(data.root);
    LedgerRefinesChoices(rules.h, e.(root := Some(data.root)), data, w.counted, s);
  }

  /** The box at `slot`: honest operators vote for what they generate, the others
      are too few, and the tie breaker did not decide. */
  ghost predicate ByVoteOfHonest(rules: Rules, w: World, slot: nat, honest: set<BB.Pubkey>,
                                 fileHash: SnapshotData -> Bytes32, bank: Bank, scan: seq<ScannedAccount>)
  {
    var terms, result := rules.terms(slot), BoxOf(rules, w, slot).result;
    && Generates(honest, LogOf(w, slot), rules.h, fileHash, bank, scan)
    && !BB.Reaches(terms, |BL.Voters(terms) - honest|)
    && (result.Some? ==> !result.value.1)
  }

  lemma ElectedRoot(rules: Rules, w: World, honest: set<BB.Pubkey>, fileHash: SnapshotData -> Bytes32, bank: Bank,
                    scan: seq<ScannedAccount>)
    requires DistinctKeys(AccountKey, scan) && TotalsFit(bank, scan) && ElectionOf(rules, w).root.Some?
    requires ByVoteOfHonest(rules, w, w.chain.proposal.snapshotSlot, honest, fileHash, bank, scan)
    ensures ElectionOf(rules, w).root == Some(GeneratedData(rules.h, bank, scan).root)
  {
    hide BB.Run, TotalsFit, Generates, BB.Reaches, BundlesOf, TreesOf;
    var slot := w.chain.proposal.snapshotSlot;
    AgreedRoot(rules.terms(slot), honest, LogOf(w, slot), rules.h, fileHash, bank, scan);
  }

  // ----- and everyone can take part

  /** Voting goes on, against a root that was agreed on. */
  predicate InSession(rules: Rules, w: World, split: Split)
  {
    var e := ElectionOf(rules, w);
    && !w.ledger.finalized && e.startEpoch <= w.chain.epoch < e.endEpoch && Whole(split)
    && e.root.Some? && e.root.value != Zero() && w.ledger.voteCount < U32_MAX
  }

  /** The vote and the override that belong to leaf `j` of bundle `i`. */
  ghost predicate Welcome(rules: Rules, w: World, bundles: seq<Bundle>, i: nat, j: nat, split: Split)
    requires i < |bundles| && j < |bundles[i].stakes|
  {
    var e := ElectionOf(rules, w);
    var vote := CastVote(BallotOf(rules.h, bundles, i, w.chain.epoch, split));
    var override := OverrideOf(rules.h, bundles, i, j, w.chain.epoch, split);
    && (Accepts(rules.h, e, w.ledger, vote) <==> VoteKey(bundles[i]) !in w.ledger.votes)
    && (Accepts(rules.h, e, w.ledger, override)
        <==> (StakeKey(bundles[i].stakes[j]), VoteKey(bundles[i])) !in w.ledger.overrides)
  }

  /** Leaf `j` of bundle `i` is the account's, and its wallet and its validator's
      wallet can each sign for it once. */
  ghost predicate HasVoice(rules: Rules, w: World, bank: Bank, bundles: seq<Bundle>, i: nat, j: nat, a: ScannedAccount,
                           split: Split)
  {
    && i < |bundles| && j < |bundles[i].stakes| && a.state.Some?
    && VoteKey(bundles[i]) == a.state.value.voter && StakeKey(bundles[i].stakes[j]) == a.key
    && Welcome(rules, w, bundles, i, j, split)
    && OverrideOf(rules.h, bundles, i, j, w.chain.epoch, split).ballot.signer == WalletOf(bank, a.state.value)
    && BallotOf(rules.h, bundles, i, w.chain.epoch, split).signer == IdentityOf(bank, a.state.value.voter)
  }

  /** No collision even with the two transactions that belong to a leaf. */
  ghost predicate CollisionlessFor(rules: Rules, w: World, bundles: seq<Bundle>, i: nat, j: nat, split: Split,
                                   s: set<Bytes>)
    requires i < |bundles| && j < |bundles[i].stakes|
  {
    && Collisionless(rules.h, bundles, w.counted + [CastVote(BallotOf(rules.h, bundles, i, w.chain.epoch, split))], s)
    && Collisionless(rules.h, bundles, w.counted + [OverrideOf(rules.h, bundles, i, j, w.chain.epoch, split)], s)
  }

  ghost predicate CollisionlessForAll(rules: Rules, w: World, bundles: seq<Bundle>, split: Split, s: set<Bytes>)
  {
    forall i: nat, j: nat :: i < |bundles| && j < |bundles[i].stakes| ==>
      CollisionlessFor(rules, w, bundles, i, j, split, s)
  }

  /** Whatever has happened, while voting goes on: every scanned account with stake
      has a leaf under its validator, with which the override signed by its wallet
      is accepted exactly once, and the vote signed by the validator's likewise. */
  lemma EveryScannedAccountCounts(rules: Rules, epoch: nat, xs: seq<Happening>, honest: set<BB.Pubkey>,
                                  fileHash: SnapshotData -> Bytes32, bank: Bank, scan: seq<ScannedAccount>,
                                  s: set<Bytes>, a: ScannedAccount, split: Split)
    returns (i: nat, j: nat)
    requires DistinctKeys(AccountKey, scan) && TotalsFit(bank, scan) && Sum(Map(CountedStake, scan)) <= U64_MAX
    requires a in scan && a.state.Some? && a.state.value.activeStake > 0
    requires var w := Unfold(rules, epoch, xs);
             && InSession(rules, w, split)
             && ByVoteOfHonest(rules, w, w.chain.proposal.snapshotSlot, honest, fileHash, bank, scan)
    requires CollisionlessForAll(rules, Unfold(rules, epoch, xs), BundlesOf(TreesOf(rules.h), bank, scan), split, s)
    ensures HasVoice(rules, Unfold(rules, epoch, xs), bank, BundlesOf(TreesOf(rules.h), bank, scan), i, j, a, split)
  {
    hide Unfold, BB.Run, TotalsFit, Run, Collisionless, BundlesOf, TreesOf, Valid, Generate.Voters, Sum, Total, Accepts,
         ByVoteOfHonest, L.Scheduled, L.Begun, OnlyFinalize, ElectionOf, Whole, BallotOf, OverrideOf, DistinctKeys;
    var w, bundles := Unfold(rules, epoch, xs), BundlesOf(TreesOf(rules.h), bank, scan);
    var data, e := GeneratedData(rules.h, bank, scan), ElectionOf(rules, w);
    i, j := AccountHasLeaf(TreesOf(rules.h), bank, scan, a);
    HasVoter(scan, a);
    OneElection(rules, epoch, xs);
    FreshPasses(TreesOf(rules.h), bank, scan);
    StakeConserved(TreesOf(rules.h), bank, scan);
    ElectedRoot(rules, w, honest, fileHash, bank, scan);
    assert CollisionlessFor(rules, w, bundles, i, j, split, s);
    OpenInSession(rules, w, bundles, i, split);
    SignedByWallets(rules.h, bundles, i, j, w.chain.epoch, split);
    EveryoneCanVote(rules.h, e, data, w.counted, i, j, w.chain.epoch, split, s);
    StakeOfValidator(TreesOf(rules.h), data, i, j);
  }

  lemma SignedByWallets(h: Hasher, bundles: seq<Bundle>, i: nat, j: nat, epoch: nat, split: Split)
    requires i < |bundles| && j < |bundles[i].stakes|
    ensures OverrideOf(h, bundles, i, j, epoch, split).ballot.signer == bundles[i].stakes[j].votingWallet
    ensures BallotOf(h, bundles, i, epoch, split).signer == bundles[i].meta.votingWallet
  {
    hide TreesOf;
  }

  lemma HasVoter(scan: seq<ScannedAccount>, a: ScannedAccount)
    requires a in scan && a.state.Some? && a.state.value.activeStake > 0
    ensures Generate.Voters(scan) != {}
  {
    assert a.state.value.voter in Generate.Voters(scan);
  }

  lemma OpenInSession(rules: Rules, w: World, bundles: seq<Bundle>, i: nat, split: Split)
    requires InSession(rules, w, split) && i < |bundles|
    ensures Open(ElectionOf(rules, w), w.ledger, BallotOf(rules.h, bundles, i, w.chain.epoch, split))
  {
    hide ElectionOf, TreesOf;
  }

  /** A validator has at least the stake of each of its leaves. */
  lemma StakeOfValidator(trees: Trees, data: SnapshotData, i: nat, j: nat)
    requires Valid(trees, data) && i < |data.bundles| && j < |data.bundles[i].stakes|
    ensures data.bundles[i].stakes[j].activeStake <= data.bundles[i].meta.activeStake
  {
    hide AllStakes, TotalStake, StakeRootsMatch, RootMatches;
    PartOfStakes(data.bundles[i].stakes, j);
  }
}
