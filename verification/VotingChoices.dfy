/** The election without running sums or caches: who said what last, and the
    totals worked out from that at the end.  The ledger refines it. */
module VotingChoices {
  import opened Bytes
  import opened Hashing
  import opened MapSums
  import opened Snapshot
  import opened Verifier
  import opened VerifierStore
  import opened Voting
  import opened VotingLaws
  import opened VotingRuns
  import opened VotingTheorems

  // ----- the last word, read off the list of transactions

  /** Whose choice it is: a validator's vote or a delegator's override. */
  datatype Voice = Validator(voteAccount: Pubkey) | Delegator(key: OverrideKey)

  /** The split that the transaction chooses for `who`. */
  function ChoiceFor(tx: Tx, who: Voice): Option<Split>
  {
    match tx
    case CastVote(b) => if who == Validator(b.voteAccount) then Some(b.split) else None
    case ModifyVote(b) => if who == Validator(b.voteAccount) then Some(b.split) else None
    case CastVoteOverride(b, del) =>
      if who == Delegator((del.stakeAccount, b.voteAccount)) then Some(b.split) else None
    case ModifyVoteOverride(b, del) =>
      if who == Delegator((del.stakeAccount, b.voteAccount)) then Some(b.split) else None
    case FinalizeProposal(_) => None
  }

  /** The split recorded for `who`. */
  function Recorded(ledger: Ledger, who: Voice): Option<Split>
  {
    match who
    case Validator(v) => if v in ledger.votes then Some(ledger.votes[v].split) else None
    case Delegator(k) => if k in ledger.overrides then Some(ledger.overrides[k].split) else None
  }

  predicate Accepted(h: Hasher, e: Election, txs: seq<Tx>, i: nat)
    requires i < |txs|
  {
    Accepts(h, e, Run(h, e, txs[..i]), txs[i])
  }

  /** Transaction `i` was accepted and chose `split` for `who`, and none after it
      that was accepted chose for `who`. */
  predicate LastWord(h: Hasher, e: Election, txs: seq<Tx>, who: Voice, split: Split, i: nat)
  {
    && i < |txs| && Accepted(h, e, txs, i) && ChoiceFor(txs[i], who) == Some(split)
    && forall j :: i < j < |txs| && Accepted(h, e, txs, j) ==> ChoiceFor(txs[j], who).None?
  }

  lemma NextRecords(ledger: Ledger, tx: Tx, who: Voice)
    requires Subtractable(ledger, tx)
    ensures Recorded(Next(ledger, tx), who)
            == if ChoiceFor(tx, who).Some? then ChoiceFor(tx, who) else Recorded(ledger, who)
  {
    hide Weigh, CacheOf;
  }

  lemma AcceptedInPrefix(h: Hasher, e: Election, txs: seq<Tx>, n: nat)
    requires n <= |txs|
    ensures forall i: nat :: i < n ==> (Accepted(h, e, txs[..n], i) <==> Accepted(h, e, txs, i))
  {
    hide Accepts, Run;
    forall i: nat | i < n ensures Accepted(h, e, txs[..n], i) <==> Accepted(h, e, txs, i) {
      assert txs[..n][..i] == txs[..i];
    }
  }

  predicate Silent(h: Hasher, e: Election, txs: seq<Tx>, who: Voice)
  {
    forall i: nat :: i < |txs| && Accepted(h, e, txs, i) ==> ChoiceFor(txs[i], who).None?
  }

  lemma OneMoreWord(h: Hasher, e: Election, txs: seq<Tx>, who: Voice)
    requires txs != [] && (Accepted(h, e, txs, |txs| - 1) ==> ChoiceFor(txs[|txs| - 1], who).None?)
    ensures Silent(h, e, txs[..|txs| - 1], who) ==> Silent(h, e, txs, who)
    ensures forall split, i: nat ::
              LastWord(h, e, txs[..|txs| - 1], who, split, i) ==> LastWord(h, e, txs, who, split, i)
  {
    hide Accepted, ChoiceFor;
    AcceptedInPrefix(h, e, txs, |txs| - 1);
  }

  /** The split recorded is the last one chosen; without one, none was. */
  ghost predicate Stands(h: Hasher, e: Election, txs: seq<Tx>, who: Voice, recorded: Option<Split>)
  {
    match recorded
    case Some(split) => exists i: nat :: LastWord(h, e, txs, who, split, i)
    case None => Silent(h, e, txs, who)
  }

  lemma StandsStep(h: Hasher, e: Election, txs: seq<Tx>, who: Voice, recorded: Option<Split>)
    requires txs != [] && Stands(h, e, txs[..|txs| - 1], who, recorded)
    ensures var choice := ChoiceFor(txs[|txs| - 1], who);
            Stands(h, e, txs, who, if Accepted(h, e, txs, |txs| - 1) && choice.Some? then choice else recorded)
  {
    hide Accepted, ChoiceFor, Silent, LastWord;
    if Accepted(h, e, txs, |txs| - 1) && ChoiceFor(txs[|txs| - 1], who).Some? {
      NewWord(h, e, txs, who);
    } else {
      OneMoreWord(h, e, txs, who);
      if recorded.Some? {
        var i: nat :| LastWord(h, e, txs[..|txs| - 1], who, recorded.value, i);
        assert LastWord(h, e, txs, who, recorded.value, i);
      }
    }
  }

  /** After any run, the split recorded for a validator or a delegator is the one
      in the last accepted transaction for it, and there is none if no accepted
      transaction was for it. */
  lemma {:induction false} LastWordStands(h: Hasher, e: Election, txs: seq<Tx>, who: Voice)
    ensures Stands(h, e, txs, who, Recorded(Run(h, e, txs), who))
  {
    hide Accepts, Recorded, ChoiceFor, Stands;
    if txs == [] {
      NothingRecorded(who);
      NothingSaid(h, e, who);
    } else {
      var n := |txs| - 1;
      LastWordStands(h, e, txs[..n], who);
      StandsStep(h, e, txs, who, Recorded(Run(h, e, txs[..n]), who));
      if Accepts(h, e, Run(h, e, txs[..n]), txs[n]) {
        AcceptedRecords(h, e, Run(h, e, txs[..n]), txs[n], who);
      }
    }
  }

  lemma NewWord(h: Hasher, e: Election, txs: seq<Tx>, who: Voice)
    requires txs != [] && Accepted(h, e, txs, |txs| - 1) && ChoiceFor(txs[|txs| - 1], who).Some?
    ensures LastWord(h, e, txs, who, ChoiceFor(txs[|txs| - 1], who).value, |txs| - 1)
  {
    hide Accepted, ChoiceFor;
  }

  lemma NothingSaid(h: Hasher, e: Election, who: Voice)
    ensures Stands(h, e, [], who, None)
  {
  }

  /** `split` is the last word of `who`. */
  ghost predicate Said(h: Hasher, e: Election, txs: seq<Tx>, who: Voice, split: Split)
  {
    exists i: nat :: LastWord(h, e, txs, who, split, i)
  }

  /** Nobody has two last words. */
  lemma OneLastWord(h: Hasher, e: Election, txs: seq<Tx>, who: Voice, split: Split, i: nat)
    requires LastWord(h, e, txs, who, split, i)
    ensures !Silent(h, e, txs, who)
    ensures forall split', j: nat :: LastWord(h, e, txs, who, split', j) ==> split' == split
  {
    hide Accepted, ChoiceFor;
  }

  /** What is recorded is what was said last. */
  lemma RecordedIffSaid(h: Hasher, e: Election, txs: seq<Tx>, who: Voice, split: Split)
    ensures Recorded(Run(h, e, txs), who) == Some(split) <==> Said(h, e, txs, who, split)
  {
    hide Run, Recorded, LastWord, Silent;
    LastWordStands(h, e, txs, who);
    if Said(h, e, txs, who, split) {
      var i: nat :| LastWord(h, e, txs, who, split, i);
      OneLastWord(h, e, txs, who, split, i);
    }
  }

  lemma SameRecords(a: Ledger, b: Ledger)
    requires forall who, split :: Recorded(a, who) == Some(split) <==> Recorded(b, who) == Some(split)
    ensures SameChoices(a, b)
  {
    forall who ensures Recorded(a, who) == Recorded(b, who) {
      assert Recorded(a, who).Some? ==> Recorded(a, who) == Some(Recorded(a, who).value);
      assert Recorded(b, who).Some? ==> Recorded(b, who) == Some(Recorded(b, who).value);
    }
    forall v: Pubkey ensures v in a.votes <==> v in b.votes
      ensures v in a.votes ==> a.votes[v].split == b.votes[v].split
    {
      assert Recorded(a, Validator(v)) == Recorded(b, Validator(v));
    }
    forall k: OverrideKey ensures k in a.overrides <==> k in b.overrides
      ensures k in a.overrides ==> a.overrides[k].split == b.overrides[k].split
    {
      assert Recorded(a, Delegator(k)) == Recorded(b, Delegator(k));
    }
  }

  /** Two lists of transactions in which everyone said the same last publish the
      same totals, whatever came before and in whatever order. */
  lemma LastWordsDecide(h: Hasher, e: Election, data: SnapshotData, txs: seq<Tx>, txs': seq<Tx>, s: set<Bytes>)
    requires Valid(TreesOf(h), data) && e.root == Some(data.root)
    requires Collisionless(h, data.bundles, txs, s) && Collisionless(h, data.bundles, txs', s)
    requires forall who, split :: Said(h, e, txs, who, split) <==> Said(h, e, txs', who, split)
    ensures Run(h, e, txs).totals == Run(h, e, txs').totals
  {
    hide Valid, Run, Collisionless, TreesOf, SameChoices, Recorded, Said;
    forall who, split
      ensures Recorded(Run(h, e, txs), who) == Some(split) <==> Recorded(Run(h, e, txs'), who) == Some(split)
    {
      RecordedIffSaid(h, e, txs, who, split);
      RecordedIffSaid(h, e, txs', who, split);
    }
    SameRecords(Run(h, e, txs), Run(h, e, txs'));
    OrderIrrelevant(h, e, data, txs, txs', s);
  }

  lemma NothingRecorded(who: Voice)
    ensures Recorded(INITIAL, who).None?
  {
  }

  lemma AcceptedRecords(h: Hasher, e: Election, ledger: Ledger, tx: Tx, who: Voice)
    requires Accepts(h, e, ledger, tx)
    ensures Recorded(Step(h, e, ledger, tx), who)
            == if ChoiceFor(tx, who).Some? then ChoiceFor(tx, who) else Recorded(ledger, who)
  {
    hide Entitled, Next, Recorded, ChoiceFor, Addable;
    NextRecords(ledger, tx, who);
  }

  // ----- the reference election

  /** What everyone said last, and whether the result is final. */
  datatype Choices = Choices(votes: map<Pubkey, Split>, overrides: map<OverrideKey, Split>, closed: bool)

  /** Voting is open at the ballot's epoch, and its shares make up the whole. */
  predicate InWindow(e: Election, c: Choices, b: Ballot)
  {
    && !c.closed && e.startEpoch <= b.epoch < e.endEpoch && e.root.Some? && e.root.value != Zero()
    && b.split.yes + b.split.no + b.split.abstain == 10_000
  }

  /** The ballot brings the meta leaf of its vote account, with that leaf's own proof. */
  predicate OwnMeta(trees: Trees, bundles: seq<Bundle>, b: Ballot, i: nat)
  {
    && i < |bundles| && bundles[i].meta == b.meta && b.meta.voteAccount == b.voteAccount
    && b.metaProof == trees.metaProof((Metas(bundles), i))
  }

  /** It is signed by that leaf's wallet, and there is stake to vote with. */
  ghost predicate ByValidator(trees: Trees, bundles: seq<Bundle>, b: Ballot)
  {
    && b.signer == b.meta.votingWallet && b.meta.activeStake > 0
    && exists i: nat :: OwnMeta(trees, bundles, b, i)
  }

  predicate OwnLeaf(trees: Trees, stakes: seq<StakeLeaf>, del: Delegated, j: nat)
  {
    && j < |stakes| && stakes[j] == del.leaf && del.leaf.stakeAccount == del.stakeAccount
    && del.stakeProof == trees.stakeProof((stakes, j))
  }

  /** The stake leaf is one of that vote account's, and its wallet signs. */
  ghost predicate ByDelegator(trees: Trees, bundles: seq<Bundle>, b: Ballot, del: Delegated)
  {
    && b.signer == del.leaf.votingWallet && del.leaf.activeStake > 0
    && exists i: nat, j: nat :: OwnMeta(trees, bundles, b, i) && OwnLeaf(trees, bundles[i].stakes, del, j)
  }

  /** Room for one more vote or override. */
  predicate Room(c: Choices) { |c.votes| + |c.overrides| < 0xFFFF_FFFF }

  ghost predicate Heard(trees: Trees, e: Election, bundles: seq<Bundle>, c: Choices, tx: Tx)
  {
    match tx
    case CastVote(b) =>
      InWindow(e, c, b) && ByValidator(trees, bundles, b) && b.voteAccount !in c.votes && Room(c)
    case ModifyVote(b) =>
      InWindow(e, c, b) && ByValidator(trees, bundles, b) && b.voteAccount in c.votes
    case CastVoteOverride(b, del) =>
      InWindow(e, c, b) && ByDelegator(trees, bundles, b, del)
      && (del.stakeAccount, b.voteAccount) !in c.overrides && Room(c)
    case ModifyVoteOverride(b, del) =>
      InWindow(e, c, b) && ByDelegator(trees, bundles, b, del) && (del.stakeAccount, b.voteAccount) in c.overrides
    case FinalizeProposal(epoch) => e.voting && !c.closed && e.endEpoch <= epoch
  }

  /** The new word replaces the old. */
  function Hear(c: Choices, tx: Tx): Choices
  {
    match tx
    case CastVote(b) => c.(votes := c.votes[b.voteAccount := b.split])
    case ModifyVote(b) => c.(votes := c.votes[b.voteAccount := b.split])
    case CastVoteOverride(b, del) => c.(overrides := c.overrides[(del.stakeAccount, b.voteAccount) := b.split])
    case ModifyVoteOverride(b, del) => c.(overrides := c.overrides[(del.stakeAccount, b.voteAccount) := b.split])
    case FinalizeProposal(_) => c.(closed := true)
  }

  ghost function ChoicesAfter(trees: Trees, e: Election, bundles: seq<Bundle>, txs: seq<Tx>): Choices
  {
    if txs == [] then Choices(map[], map[], false)
    else
      var c, tx := ChoicesAfter(trees, e, bundles, txs[..|txs| - 1]), txs[|txs| - 1];
      if Heard(trees, e, bundles, c, tx) then Hear(c, tx) else c
  }

  // ----- the totals, from the choices

  function BasisPoints(s: Split, side: Side): nat
  {
    match side
    case Yes => s.yes
    case No => s.no
    case Abstain => s.abstain
  }

  /** So many basis points of a stake, rounded down. */
  function Part(stake: nat, basisPoints: nat): nat { stake * basisPoints / 10_000 }

  /** The stake of account `k.0`'s leaf under vote account `k.1`. */
  function LeafStake(bundles: seq<Bundle>, k: OverrideKey): nat
  {
    if BundleOf(bundles, k.1).None? || LeafFor(BundleOf(bundles, k.1).value.stakes, k.0).None? then 0
    else LeafFor(BundleOf(bundles, k.1).value.stakes, k.0).value.activeStake
  }

  function StakeOf(bundles: seq<Bundle>, v: Pubkey): nat
  {
    if BundleOf(bundles, v).None? then 0 else BundleOf(bundles, v).value.meta.activeStake
  }

  ghost function LeafStakeUnder(bundles: seq<Bundle>, v: Pubkey): (OverrideKey, Split) -> nat
  {
    (k: OverrideKey, s: Split) => if k.1 == v then LeafStake(bundles, k) else 0
  }

  /** The stake that delegators took away from vote account `v`. */
  ghost function Withdrawn(bundles: seq<Bundle>, overrides: map<OverrideKey, Split>, v: Pubkey): nat
  {
    WSum(overrides, LeafStakeUnder(bundles, v))
  }

  /** What is left to vote account `v`. */
  ghost function Left(bundles: seq<Bundle>, overrides: map<OverrideKey, Split>, v: Pubkey): nat
  {
    if StakeOf(bundles, v) < Withdrawn(bundles, overrides, v) then 0
    else StakeOf(bundles, v) - Withdrawn(bundles, overrides, v)
  }

  ghost function VoteWorth(bundles: seq<Bundle>, overrides: map<OverrideKey, Split>, side: Side)
    : (Pubkey, Split) -> nat
  {
    (v: Pubkey, s: Split) => Part(Left(bundles, overrides, v), BasisPoints(s, side))
  }

  ghost function OverrideWorth(bundles: seq<Bundle>, side: Side): (OverrideKey, Split) -> nat
  {
    (k: OverrideKey, s: Split) => Part(LeafStake(bundles, k), BasisPoints(s, side))
  }

  /** Each validator's stake without what was withdrawn from it, and each
      withdrawn stake, divided as chosen. */
  ghost function Worth(bundles: seq<Bundle>, c: Choices, side: Side): nat
  {
    WSum(c.votes, VoteWorth(bundles, c.overrides, side)) + WSum(c.overrides, OverrideWorth(bundles, side))
  }

  // ----- the ledger refines it

  /** The ledger records these choices. */
  ghost predicate Records(ledger: Ledger, c: Choices)
  {
    && ledger.votes.Keys == c.votes.Keys && (forall v :: v in c.votes ==> ledger.votes[v].split == c.votes[v])
    && ledger.overrides.Keys == c.overrides.Keys
       && (forall k :: k in c.overrides ==> ledger.overrides[k].split == c.overrides[k])
    && ledger.finalized == c.closed
  }

  /** Entries with the same keys and the same weights have the same sum. */
  lemma {:induction false} SameSum<K, V, W>(m: map<K, V>, n: map<K, W>, w: (K, V) -> nat, u: (K, W) -> nat)
    requires m.Keys == n.Keys && forall k :: k in m ==> w(k, m[k]) == u(k, n[k])
    ensures WSum(m, w) == WSum(n, u)
    decreases |m|
  {
    hide WSum;
    if m == map[] {
      assert n == map[];
      WSumEmpty(w);
      WSumEmpty(u);
    } else {
      var k :| k in m;
      WSumRemove(m, w, k);
      WSumRemove(n, u, k);
      SameSum(m - {k}, n - {k}, w, u);
    }
  }

  lemma SameSize<K, V, W>(m: map<K, V>, n: map<K, W>)
    requires m.Keys == n.Keys
    ensures |m| == |n|
  {
    assert |m| == |m.Keys| && |n| == |n.Keys|;
  }

  lemma WeighOn(stake: nat, s: Split, side: Side)
    ensures On(Weigh(stake, s), side) == Part(stake, BasisPoints(s, side))
  {
  }

  lemma WithdrawnIs(bundles: seq<Bundle>, ledger: Ledger, c: Choices, v: Pubkey)
    requires OverridesAgree(bundles, ledger.overrides) && Records(ledger, c)
    ensures OverriddenStake(ledger.overrides, v) == Withdrawn(bundles, c.overrides, v)
  {
    hide WSum, BundleOf, LeafFor, Weigh;
    var w := Within(OverrideStake, VoteAccountOf, v);
    var u := LeafStakeUnder(bundles, v);
    forall k | k in ledger.overrides ensures w(k, ledger.overrides[k]) == u(k, c.overrides[k]) {
      assert OverrideAgrees(bundles, k, ledger.overrides[k]);
      OverrideWeights(k, ledger.overrides[k], v);
    }
    SameSum(ledger.overrides, c.overrides, w, u);
  }

  lemma OverridesWorth(bundles: seq<Bundle>, ledger: Ledger, c: Choices, side: Side)
    requires OverridesAgree(bundles, ledger.overrides) && Records(ledger, c)
    ensures WSum(ledger.overrides, OverrideOn(side)) == WSum(c.overrides, OverrideWorth(bundles, side))
  {
    hide WSum, BundleOf, LeafFor, Weigh;
    forall k | k in ledger.overrides
      ensures OverrideOn(side)(k, ledger.overrides[k]) == OverrideWorth(bundles, side)(k, c.overrides[k])
    {
      assert OverrideAgrees(bundles, k, ledger.overrides[k]);
      WeighOn(ledger.overrides[k].stake, c.overrides[k], side);
    }
    SameSum(ledger.overrides, c.overrides, OverrideOn(side), OverrideWorth(bundles, side));
  }

  lemma VotesWorth(bundles: seq<Bundle>, ledger: Ledger, c: Choices, side: Side)
    requires VotesAgree(bundles, ledger) && OverridesAgree(bundles, ledger.overrides) && Records(ledger, c)
    ensures WSum(ledger.votes, VoteOn(side)) == WSum(c.votes, VoteWorth(bundles, c.overrides, side))
  {
    hide WSum, BundleOf, Weigh, OverridesAgree, OverriddenStake, Withdrawn;
    forall v | v in ledger.votes
      ensures VoteOn(side)(v, ledger.votes[v]) == VoteWorth(bundles, c.overrides, side)(v, c.votes[v])
    {
      assert VoteAgrees(bundles, ledger.overrides, v, ledger.votes[v]);
      WithdrawnIs(bundles, ledger, c, v);
      WeighOn(Left(bundles, c.overrides, v), c.votes[v], side);
    }
    SameSum(ledger.votes, c.votes, VoteOn(side), VoteWorth(bundles, c.overrides, side));
  }

  /** A balanced ledger that records these choices publishes what they are worth. */
  lemma TotalsAreWorth(bundles: seq<Bundle>, ledger: Ledger, c: Choices, side: Side)
    requires Invariant(bundles, ledger) && Records(ledger, c)
    ensures On(ledger.totals, side) == Worth(bundles, c, side)
    ensures ledger.voteCount == |c.votes| + |c.overrides|
  {
    hide WSum, VotesAgree, OverridesAgree, CachesAgree, On, VoteWorth, OverrideWorth;
    VotesWorth(bundles, ledger, c, side);
    OverridesWorth(bundles, ledger, c, side);
    SameSize(ledger.votes, c.votes);
    SameSize(ledger.overrides, c.overrides);
  }

  lemma ValidatorIff(h: Hasher, e: Election, data: SnapshotData, b: Ballot, s: set<Bytes>)
    requires Valid(TreesOf(h), data) && e.root == Some(data.root)
    requires CollisionFreeOn(h, s) && Hashed(h, data.bundles, s) && MetaInputs(h, b) <= s
    ensures ValidatorProved(h, e, b) <==> ByValidator(TreesOf(h), data.bundles, b)
    ensures MetaProved(h, e, b) <==> exists i: nat :: OwnMeta(TreesOf(h), data.bundles, b, i)
  {
    hide Hashed, MetaInputs, TreesOf, MetaProved, StakeRootsMatch, Coherent, CollisionFreeOn;
    MetaProvedIff(h, e, data, b, s);
    if MetaProved(h, e, b) {
      var i: nat :| i < |data.bundles| && data.bundles[i].meta == b.meta
                    && b.metaProof == TreesOf(h).metaProof((Metas(data.bundles), i));
      assert OwnMeta(TreesOf(h), data.bundles, b, i);
    }
  }

  lemma DelegatorIff(h: Hasher, e: Election, data: SnapshotData, b: Ballot, del: Delegated, s: set<Bytes>)
    requires Valid(TreesOf(h), data) && e.root == Some(data.root)
    requires CollisionFreeOn(h, s) && Hashed(h, data.bundles, s)
    requires MetaInputs(h, b) <= s && StakeInputs(h, del) <= s
    ensures DelegatorProved(h, e, b, del) <==> ByDelegator(TreesOf(h), data.bundles, b, del)
  {
    hide StakesHashed, MetaInputs, StakeInputs, Verifies, TreesOf, MetaProved, Coherent, RootMatches, CollisionFreeOn;
    ValidatorIff(h, e, data, b, s);
    forall i: nat | OwnMeta(TreesOf(h), data.bundles, b, i)
      ensures Verifies(h, h(StakeContent(del.leaf)), del.stakeProof, b.meta.stakeRoot)
              && del.leaf.stakeAccount == del.stakeAccount
              <==> exists j: nat :: OwnLeaf(TreesOf(h), data.bundles[i].stakes, del, j)
    {
      var stakes := data.bundles[i].stakes;
      StakeProvedIff(h, stakes, del, s);
      if exists j: nat :: j < |stakes| && stakes[j] == del.leaf && del.stakeProof == TreesOf(h).stakeProof((stakes, j))
      {
        var j: nat :| j < |stakes| && stakes[j] == del.leaf && del.stakeProof == TreesOf(h).stakeProof((stakes, j));
        assert del.leaf.stakeAccount == del.stakeAccount ==> OwnLeaf(TreesOf(h), stakes, del, j);
      }
    }
  }

  /** The program lets a transaction through exactly when it is heard. */
  lemma EntitledIff(h: Hasher, e: Election, data: SnapshotData, ledger: Ledger, c: Choices, tx: Tx, s: set<Bytes>)
    requires Valid(TreesOf(h), data) && e.root == Some(data.root)
    requires CollisionFreeOn(h, s) && Hashed(h, data.bundles, s) && TxInputs(h, tx) <= s
    requires Records(ledger, c)
    ensures Heard(TreesOf(h), e, data.bundles, c, tx)
            <==> Entitled(h, e, ledger, tx) && (Counts(tx) ==> Room(c))
  {
    hide Valid, Hashed, MetaInputs, StakeInputs, ValidatorProved, DelegatorProved, ByValidator, ByDelegator, TreesOf,
         CollisionFreeOn, Room;
    match tx
    case CastVote(b) => ValidatorIff(h, e, data, b, s);
    case ModifyVote(b) => ValidatorIff(h, e, data, b, s);
    case CastVoteOverride(b, del) => DelegatorIff(h, e, data, b, del, s);
    case ModifyVoteOverride(b, del) => DelegatorIff(h, e, data, b, del, s);
    case FinalizeProposal(_) =>
  }

  lemma RecordsNext(ledger: Ledger, c: Choices, tx: Tx)
    requires Records(ledger, c) && Subtractable(ledger, tx)
    ensures Records(Next(ledger, tx), Hear(c, tx))
  {
    hide Next, Hear, Subtractable;
    VotesNext(ledger, c, tx);
    OverridesNext(ledger, c, tx);
  }

  lemma VotesNext(ledger: Ledger, c: Choices, tx: Tx)
    requires Records(ledger, c) && Subtractable(ledger, tx)
    ensures var votes, chosen := Next(ledger, tx).votes, Hear(c, tx).votes;
            votes.Keys == chosen.Keys && forall v :: v in chosen ==> votes[v].split == chosen[v]
    ensures Next(ledger, tx).finalized == Hear(c, tx).closed
  {
    hide Weigh, CacheOf;
  }

  lemma OverridesNext(ledger: Ledger, c: Choices, tx: Tx)
    requires Records(ledger, c) && Subtractable(ledger, tx)
    ensures var overrides, chosen := Next(ledger, tx).overrides, Hear(c, tx).overrides;
            overrides.Keys == chosen.Keys && forall k :: k in chosen ==> overrides[k].split == chosen[k]
  {
    hide Weigh, CacheOf;
  }

  lemma CollisionlessStep(h: Hasher, bundles: seq<Bundle>, txs: seq<Tx>, tx: Tx, s: set<Bytes>)
    ensures Collisionless(h, bundles, txs + [tx], s) <==> Collisionless(h, bundles, txs, s) && TxInputs(h, tx) <= s
  {
    hide Hashed, TxInputs, CollisionFreeOn;
    var all := txs + [tx];
    assert all[|txs|] == tx;
    assert forall i :: 0 <= i < |txs| ==> all[i] == txs[i];
  }

  /** After any run, the ledger records the choices of the reference election, the
      totals it publishes are what those choices are worth, and its counter is
      their number. */
  lemma {:induction false} LedgerRefinesChoices(h: Hasher, e: Election, data: SnapshotData, txs: seq<Tx>,
                                                s: set<Bytes>)
    requires Valid(TreesOf(h), data) && e.root == Some(data.root) && Total(data.bundles) <= U64_MAX
    requires Collisionless(h, data.bundles, txs, s)
    ensures var ledger, c := Run(h, e, txs), ChoicesAfter(TreesOf(h), e, data.bundles, txs);
            && Records(ledger, c)
            && ledger.voteCount == |c.votes| + |c.overrides|
            && ledger.totals.yes == Worth(data.bundles, c, Yes)
            && ledger.totals.no == Worth(data.bundles, c, No)
            && ledger.totals.abstain == Worth(data.bundles, c, Abstain)
  {
    hide Valid, TreesOf, Total, Collisionless, Records, Worth, Accepts, Heard, Hear, Next, Invariant;
    var ledger, c := Run(h, e, txs), ChoicesAfter(TreesOf(h), e, data.bundles, txs);
    if txs == [] {
      NothingHeard();
    } else {
      var n := |txs| - 1;
      assert txs == txs[..n] + [txs[n]];
      CollisionlessStep(h, data.bundles, txs[..n], txs[n], s);
      LedgerRefinesChoices(h, e, data, txs[..n], s);
      AcceptedIffHeard(h, e, data, txs[..n], txs[n], s);
      if Accepts(h, e, Run(h, e, txs[..n]), txs[n]) {
        AcceptedIsSubtractable(h, e, Run(h, e, txs[..n]), txs[n]);
        RecordsNext(Run(h, e, txs[..n]), ChoicesAfter(TreesOf(h), e, data.bundles, txs[..n]), txs[n]);
      }
    }
    EveryRunBalances(h, e, data, txs, s);
    TotalsAreWorth(data.bundles, ledger, c, Yes);
    TotalsAreWorth(data.bundles, ledger, c, No);
    TotalsAreWorth(data.bundles, ledger, c, Abstain);
  }

  lemma NothingHeard()
    ensures Records(INITIAL, Choices(map[], map[], false))
  {
  }

  lemma AcceptedIsSubtractable(h: Hasher, e: Election, ledger: Ledger, tx: Tx)
    requires Accepts(h, e, ledger, tx)
    ensures Subtractable(ledger, tx)
  {
    hide Subtractable, Addable, Entitled;
  }

  lemma AcceptedIffHeard(h: Hasher, e: Election, data: SnapshotData, txs: seq<Tx>, tx: Tx, s: set<Bytes>)
    requires Valid(TreesOf(h), data) && e.root == Some(data.root) && Total(data.bundles) <= U64_MAX
    requires Collisionless(h, data.bundles, txs + [tx], s)
    requires var c := ChoicesAfter(TreesOf(h), e, data.bundles, txs);
             Records(Run(h, e, txs), c) && Run(h, e, txs).voteCount == |c.votes| + |c.overrides|
    ensures Accepts(h, e, Run(h, e, txs), tx)
            <==> Heard(TreesOf(h), e, data.bundles, ChoicesAfter(TreesOf(h), e, data.bundles, txs), tx)
  {
    hide Valid, TreesOf, Total, Records, Accepts, Heard, Run, ChoicesAfter, Hashed, TxInputs, CollisionFreeOn, Entitled;
    EntitledIsAccepted(h, e, data, txs, tx, s);
    CollisionlessStep(h, data.bundles, txs, tx, s);
    EntitledIff(h, e, data, Run(h, e, txs), ChoicesAfter(TreesOf(h), e, data.bundles, txs), tx, s);
  }

  /** After any run, the program accepts a transaction exactly when the reference
      election hears it. */
  lemma HeardIsAccepted(h: Hasher, e: Election, data: SnapshotData, txs: seq<Tx>, tx: Tx, s: set<Bytes>)
    requires Valid(TreesOf(h), data) && e.root == Some(data.root) && Total(data.bundles) <= U64_MAX
    requires Collisionless(h, data.bundles, txs + [tx], s)
    ensures Accepts(h, e, Run(h, e, txs), tx)
            <==> Heard(TreesOf(h), e, data.bundles, ChoicesAfter(TreesOf(h), e, data.bundles, txs), tx)
  {
    hide Valid, TreesOf, Total, Records, Accepts, Heard, Run, ChoicesAfter, Collisionless;
    CollisionlessStep(h, data.bundles, txs, tx, s);
    LedgerRefinesChoices(h, e, data, txs, s);
    AcceptedIffHeard(h, e, data, txs, tx, s);
  }

  // ----- whose account it is

  /** A vote names the wallet that the snapshot gives the vote account to, and the
      stake of its leaf. */
  predicate VoteHolder(bundles: seq<Bundle>, v: Pubkey, vote: Vote)
  {
    && BundleOf(bundles, v).Some?
    && vote.validator == BundleOf(bundles, v).value.meta.votingWallet
    && vote.stake == BundleOf(bundles, v).value.meta.activeStake
  }

  /** An override names the wallet that the snapshot gives the stake account to. */
  predicate OverrideHolder(bundles: seq<Bundle>, k: OverrideKey, o: Override)
  {
    && BundleOf(bundles, k.1).Some?
    && var leaf := LeafFor(BundleOf(bundles, k.1).value.stakes, k.0);
    && leaf.Some? && o.delegator == leaf.value.votingWallet
  }

  predicate Holders(bundles: seq<Bundle>, ledger: Ledger)
  {
    && (forall v :: v in ledger.votes ==> VoteHolder(bundles, v, ledger.votes[v]))
    && (forall k :: k in ledger.overrides ==> OverrideHolder(bundles, k, ledger.overrides[k]))
  }

  lemma VoteHoldersNext(h: Hasher, e: Election, bundles: seq<Bundle>, ledger: Ledger, tx: Tx)
    requires Holders(bundles, ledger) && Authentic(bundles, tx)
    requires Entitled(h, e, ledger, tx) && Subtractable(ledger, tx)
    ensures forall v :: v in Next(ledger, tx).votes ==> VoteHolder(bundles, v, Next(ledger, tx).votes[v])
  {
    hide BundleOf, LeafKnown, Weigh, CacheOf, Verifies, Open, OverrideHolder;
    var next := Next(ledger, tx);
    forall v | v in next.votes ensures VoteHolder(bundles, v, next.votes[v]) {
      assert v in ledger.votes ==> VoteHolder(bundles, v, ledger.votes[v]);
    }
  }

  lemma OverrideHoldersNext(h: Hasher, e: Election, bundles: seq<Bundle>, ledger: Ledger, tx: Tx)
    requires Holders(bundles, ledger) && Authentic(bundles, tx)
    requires Entitled(h, e, ledger, tx) && Subtractable(ledger, tx)
    ensures forall k :: k in Next(ledger, tx).overrides ==> OverrideHolder(bundles, k, Next(ledger, tx).overrides[k])
  {
    hide BundleOf, LeafFor, Weigh, CacheOf, Verifies, Open, VoteHolder;
    var next := Next(ledger, tx);
    forall k | k in next.overrides ensures OverrideHolder(bundles, k, next.overrides[k]) {
      assert k in ledger.overrides ==> OverrideHolder(bundles, k, ledger.overrides[k]);
    }
  }

  /** After any run, whoever a vote or an override is recorded for is the wallet of
      the leaf in the snapshot. */
  lemma {:induction false} RecordsNameTheHolder(h: Hasher, e: Election, data: SnapshotData, txs: seq<Tx>, s: set<Bytes>)
    requires Valid(TreesOf(h), data) && e.root == Some(data.root)
    requires Collisionless(h, data.bundles, txs, s)
    ensures Holders(data.bundles, Run(h, e, txs))
  {
    hide Valid, TreesOf, Collisionless, Holders, Entitled, Computable, Next, Authentic;
    if txs == [] {
      NoHolders(data.bundles);
    } else {
      var n := |txs| - 1;
      assert txs == txs[..n] + [txs[n]];
      CollisionlessStep(h, data.bundles, txs[..n], txs[n], s);
      RecordsNameTheHolder(h, e, data, txs[..n], s);
      var ledger := Run(h, e, txs[..n]);
      if Accepts(h, e, ledger, txs[n]) {
        AcceptedIsSubtractable(h, e, ledger, txs[n]);
        CollisionlessParts(h, data.bundles, txs[..n], s);
        EntitledIsAuthentic(h, e, data, ledger, txs[n], s);
        VoteHoldersNext(h, e, data.bundles, ledger, txs[n]);
        OverrideHoldersNext(h, e, data.bundles, ledger, txs[n]);
        BothHold(data.bundles, Next(ledger, txs[n]));
      }
    }
  }

  lemma BothHold(bundles: seq<Bundle>, ledger: Ledger)
    requires forall v :: v in ledger.votes ==> VoteHolder(bundles, v, ledger.votes[v])
    requires forall k :: k in ledger.overrides ==> OverrideHolder(bundles, k, ledger.overrides[k])
    ensures Holders(bundles, ledger)
  {
  }

  lemma NoHolders(bundles: seq<Bundle>)
    ensures Holders(bundles, INITIAL)
  {
  }

  lemma CollisionlessParts(h: Hasher, bundles: seq<Bundle>, txs: seq<Tx>, s: set<Bytes>)
    requires Collisionless(h, bundles, txs, s)
    ensures CollisionFreeOn(h, s) && Hashed(h, bundles, s)
  {
  }
}
