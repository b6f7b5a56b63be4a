/** Every instruction that presents leaves of the snapshot keeps the tally
    invariant, and none of its checked subtractions fails. */
module VotingRuns {
  import opened Bytes
  import opened MapSums
  import opened Snapshot
  import opened Verifier
  import opened Voting
  import opened VotingLaws

  // ----- what the proofs must establish

  predicate MetaKnown(bundles: seq<Bundle>, b: Ballot)
  {
    BundleOf(bundles, b.voteAccount).Some? && BundleOf(bundles, b.voteAccount).value.meta == b.meta
  }

  predicate LeafKnown(bundles: seq<Bundle>, b: Ballot, del: Delegated)
  {
    && MetaKnown(bundles, b)
    && LeafFor(BundleOf(bundles, b.voteAccount).value.stakes, del.stakeAccount) == Some(del.leaf)
    && del.leaf.activeStake > 0
  }

  /** The leaves a transaction presents are those of the snapshot. */
  predicate Authentic(bundles: seq<Bundle>, tx: Tx)
  {
    match tx
    case CastVote(b) => MetaKnown(bundles, b)
    case ModifyVote(b) => MetaKnown(bundles, b)
    case CastVoteOverride(b, del) => LeafKnown(bundles, b, del)
    case ModifyVoteOverride(b, del) => LeafKnown(bundles, b, del)
    case FinalizeProposal(_) => true
  }

  /** Votes and overrides are created once and changed only when they exist. */
  predicate InOrder(ledger: Ledger, tx: Tx)
  {
    match tx
    case CastVote(b) => Whole(b.split) && b.voteAccount !in ledger.votes
    case ModifyVote(b) => Whole(b.split) && b.voteAccount in ledger.votes
    case CastVoteOverride(b, del) => Whole(b.split) && (del.stakeAccount, b.voteAccount) !in ledger.overrides
    case ModifyVoteOverride(b, del) => Whole(b.split) && (del.stakeAccount, b.voteAccount) in ledger.overrides
    case FinalizeProposal(_) => true
  }

  // ----- how the sums move

  lemma OverrideWeights(k: OverrideKey, o: Override, v: Pubkey)
    ensures Within(OverrideStake, VoteAccountOf, v)(k, o) == if k.1 == v then o.stake else 0
    ensures forall side :: OverrideOn(side)(k, o) == On(o.lamports, side)
    ensures forall side :: Within(OverrideOn(side), VoteAccountOf, v)(k, o)
                           == if k.1 == v then On(o.lamports, side) else 0
  {
    assert VoteAccountOf(k) == k.1 && OverrideStake(k, o) == o.stake;
  }

  lemma OverriddenInsert(m: map<OverrideKey, Override>, k: OverrideKey, o: Override, v: Pubkey)
    requires k !in m
    ensures OverriddenStake(m[k := o], v) == OverriddenStake(m, v) + if k.1 == v then o.stake else 0
    ensures forall side :: OverriddenOn(m[k := o], v, side)
                           == OverriddenOn(m, v, side) + if k.1 == v then On(o.lamports, side) else 0
    ensures forall side :: WSum(m[k := o], OverrideOn(side)) == WSum(m, OverrideOn(side)) + On(o.lamports, side)
  {
    hide WSum, On, Within, OverrideOn;
    OverrideWeights(k, o, v);
    WSumInsert(m, Within(OverrideStake, VoteAccountOf, v), k, o);
    forall side
      ensures OverriddenOn(m[k := o], v, side)
              == OverriddenOn(m, v, side) + if k.1 == v then On(o.lamports, side) else 0
      ensures WSum(m[k := o], OverrideOn(side)) == WSum(m, OverrideOn(side)) + On(o.lamports, side)
    {
      WSumInsert(m, Within(OverrideOn(side), VoteAccountOf, v), k, o);
      WSumInsert(m, OverrideOn(side), k, o);
    }
  }

  lemma OverriddenUpdate(m: map<OverrideKey, Override>, k: OverrideKey, o: Override, v: Pubkey)
    requires k in m && o.stake == m[k].stake
    ensures OverriddenStake(m[k := o], v) == OverriddenStake(m, v)
    ensures forall side :: OverriddenOn(m[k := o], v, side) + (if k.1 == v then On(m[k].lamports, side) else 0)
                           == OverriddenOn(m, v, side) + if k.1 == v then On(o.lamports, side) else 0
    ensures forall side :: WSum(m[k := o], OverrideOn(side)) + On(m[k].lamports, side)
                           == WSum(m, OverrideOn(side)) + On(o.lamports, side)
  {
    hide WSum, On, Within, OverrideOn;
    OverrideWeights(k, o, v);
    OverrideWeights(k, m[k], v);
    WSumUpdate(m, Within(OverrideStake, VoteAccountOf, v), k, o);
    forall side
      ensures OverriddenOn(m[k := o], v, side) + (if k.1 == v then On(m[k].lamports, side) else 0)
              == OverriddenOn(m, v, side) + if k.1 == v then On(o.lamports, side) else 0
      ensures WSum(m[k := o], OverrideOn(side)) + On(m[k].lamports, side)
              == WSum(m, OverrideOn(side)) + On(o.lamports, side)
    {
      WSumUpdate(m, Within(OverrideOn(side), VoteAccountOf, v), k, o);
      WSumUpdate(m, OverrideOn(side), k, o);
    }
  }

  lemma VoteSums(votes: map<Pubkey, Vote>, v: Pubkey, vote: Vote)
    ensures v !in votes ==> forall side :: WSum(votes[v := vote], VoteOn(side))
                                           == WSum(votes, VoteOn(side)) + On(vote.lamports, side)
    ensures v in votes ==> forall side :: WSum(votes[v := vote], VoteOn(side)) + On(votes[v].lamports, side)
                                          == WSum(votes, VoteOn(side)) + On(vote.lamports, side)
  {
    hide WSum, On;
    forall side
      ensures v !in votes ==>
                WSum(votes[v := vote], VoteOn(side)) == WSum(votes, VoteOn(side)) + On(vote.lamports, side)
      ensures v in votes ==> WSum(votes[v := vote], VoteOn(side)) + On(votes[v].lamports, side)
                             == WSum(votes, VoteOn(side)) + On(vote.lamports, side)
    {
      if v in votes {
        WSumUpdate(votes, VoteOn(side), v, vote);
      } else {
        WSumInsert(votes, VoteOn(side), v, vote);
      }
    }
  }

  /** A recorded vote or override is part of the totals. */
  lemma VoteCovered(ledger: Ledger, v: Pubkey)
    requires TotalsAgree(ledger) && v in ledger.votes
    ensures ledger.totals.Covers(ledger.votes[v].lamports)
  {
    hide WSum;
    forall side ensures On(ledger.votes[v].lamports, side) <= On(ledger.totals, side) {
      WSumPart(ledger.votes, VoteOn(side), v);
    }
    assert On(ledger.votes[v].lamports, Yes) <= On(ledger.totals, Yes);
    assert On(ledger.votes[v].lamports, No) <= On(ledger.totals, No);
    assert On(ledger.votes[v].lamports, Abstain) <= On(ledger.totals, Abstain);
  }

  lemma OverrideCovered(ledger: Ledger, k: OverrideKey)
    requires TotalsAgree(ledger) && k in ledger.overrides
    ensures ledger.totals.Covers(ledger.overrides[k].lamports)
  {
    hide WSum;
    var o := ledger.overrides[k];
    forall side ensures On(o.lamports, side) <= On(ledger.totals, side) {
      WSumPart(ledger.overrides, OverrideOn(side), k);
    }
    assert On(o.lamports, Yes) <= On(ledger.totals, Yes);
    assert On(o.lamports, No) <= On(ledger.totals, No);
    assert On(o.lamports, Abstain) <= On(ledger.totals, Abstain);
  }

  lemma OverrideCached(ledger: Ledger, k: OverrideKey)
    requires CacheAgrees(ledger, k.1) && k in ledger.overrides
    ensures CacheOf(ledger, k.1).lamports.Covers(ledger.overrides[k].lamports)
  {
    hide WSum, CacheOf;
    var o := ledger.overrides[k];
    var c := CacheOf(ledger, k.1).lamports;
    forall side ensures On(o.lamports, side) <= On(c, side) {
      var w := Within(OverrideOn(side), VoteAccountOf, k.1);
      WSumPart(ledger.overrides, w, k);
      assert VoteAccountOf(k) == k.1;
      assert w(k, o) == OverrideOn(side)(k, o);
    }
    assert On(o.lamports, Yes) <= On(c, Yes);
    assert On(o.lamports, No) <= On(c, No);
    assert On(o.lamports, Abstain) <= On(c, Abstain);
  }

  // ----- nothing underflows

  lemma NoUnderflow(bundles: seq<Bundle>, ledger: Ledger, tx: Tx)
    requires Coherent(bundles) && Invariant(bundles, ledger) && Authentic(bundles, tx) && InOrder(ledger, tx)
    ensures Subtractable(ledger, tx)
  {
    hide Coherent, WSum, BundleOf, LeafFor, Weigh, TotalsAgree;
    match tx
    case CastVote(b) =>
      assert CacheAgrees(ledger, b.voteAccount);
      OverriddenBound(bundles, ledger.overrides, b.voteAccount);
    case ModifyVote(b) =>
      assert VoteAgrees(bundles, ledger.overrides, b.voteAccount, ledger.votes[b.voteAccount]);
      VoteCovered(ledger, b.voteAccount);
    case CastVoteOverride(b, del) =>
      if b.voteAccount in ledger.votes {
        VoteCovered(ledger, b.voteAccount);
        assert VoteAgrees(bundles, ledger.overrides, b.voteAccount, ledger.votes[b.voteAccount]);
        NewOverrideBound(bundles, ledger.overrides, b, del);
      }
    case ModifyVoteOverride(b, del) =>
      var k := (del.stakeAccount, b.voteAccount);
      OverrideCovered(ledger, k);
      assert k.1 in ledger.caches;
      if b.voteAccount !in ledger.votes {
        assert CacheAgrees(ledger, k.1);
        OverrideCached(ledger, k);
      }
    case FinalizeProposal(_) =>
  }

  function OverrideBy(b: Ballot, del: Delegated): Override
  {
    Override(b.signer, b.split, Weigh(del.leaf.activeStake, b.split), del.leaf.activeStake)
  }

  lemma OverrideStaysAgreed(bundles: seq<Bundle>, overrides: map<OverrideKey, Override>, b: Ballot, del: Delegated,
                            o: Override)
    requires OverridesAgree(bundles, overrides) && LeafKnown(bundles, b, del) && Whole(b.split)
    requires o.stake == del.leaf.activeStake && o.split == b.split && o.lamports == Weigh(o.stake, o.split)
    ensures OverridesAgree(bundles, overrides[(del.stakeAccount, b.voteAccount) := o])
  {
    hide BundleOf, LeafFor, Weigh;
    var k := (del.stakeAccount, b.voteAccount);
    var m := overrides[k := o];
    forall j | j in m ensures OverrideAgrees(bundles, j, m[j]) {
      if j != k {
        assert OverrideAgrees(bundles, j, overrides[j]);
      }
    }
  }

  lemma NewOverrideBound(bundles: seq<Bundle>, overrides: map<OverrideKey, Override>, b: Ballot, del: Delegated)
    requires Coherent(bundles) && OverridesAgree(bundles, overrides) && LeafKnown(bundles, b, del) && Whole(b.split)
    requires (del.stakeAccount, b.voteAccount) !in overrides
    ensures OverriddenStake(overrides, b.voteAccount) + del.leaf.activeStake <= b.meta.activeStake
  {
    hide Coherent, WSum, BundleOf, LeafFor, Weigh, OverridesAgree;
    var k := (del.stakeAccount, b.voteAccount);
    OverrideStaysAgreed(bundles, overrides, b, del, OverrideBy(b, del));
    OverriddenInsert(overrides, k, OverrideBy(b, del), b.voteAccount);
    OverriddenBound(bundles, overrides[k := OverrideBy(b, del)], b.voteAccount);
  }

  // ----- each instruction keeps the invariant

  lemma CastVoteKeeps(bundles: seq<Bundle>, ledger: Ledger, b: Ballot)
    requires Invariant(bundles, ledger)
    requires Authentic(bundles, CastVote(b)) && InOrder(ledger, CastVote(b)) && Subtractable(ledger, CastVote(b))
    ensures Invariant(bundles, AfterCastVote(ledger, b))
  {
    hide WSum, BundleOf, Weigh, OverridesAgree;
    var next := AfterCastVote(ledger, b);
    VoteSums(ledger.votes, b.voteAccount, next.votes[b.voteAccount]);
    assert CacheAgrees(ledger, b.voteAccount);
    forall v | v in next.votes ensures VoteAgrees(bundles, next.overrides, v, next.votes[v]) {
      if v != b.voteAccount {
        assert VoteAgrees(bundles, ledger.overrides, v, ledger.votes[v]);
      }
    }
    forall v | v !in next.votes ensures CacheAgrees(next, v) {
      assert CacheAgrees(ledger, v);
    }
  }

  lemma ModifyVoteKeeps(bundles: seq<Bundle>, ledger: Ledger, b: Ballot)
    requires Invariant(bundles, ledger)
    requires Authentic(bundles, ModifyVote(b)) && InOrder(ledger, ModifyVote(b)) && Subtractable(ledger, ModifyVote(b))
    ensures Invariant(bundles, AfterModifyVote(ledger, b))
  {
    hide WSum, BundleOf, Weigh, OverridesAgree;
    var next := AfterModifyVote(ledger, b);
    VoteSums(ledger.votes, b.voteAccount, next.votes[b.voteAccount]);
    forall v | v in next.votes ensures VoteAgrees(bundles, next.overrides, v, next.votes[v]) {
      assert VoteAgrees(bundles, ledger.overrides, v, ledger.votes[v]);
    }
    forall v | v !in next.votes ensures CacheAgrees(next, v) {
      assert CacheAgrees(ledger, v);
    }
    assert next.votes.Keys == ledger.votes.Keys;
  }

  lemma CastVoteOverrideTotals(bundles: seq<Bundle>, ledger: Ledger, b: Ballot, del: Delegated)
    requires TotalsAgree(ledger) && InOrder(ledger, CastVoteOverride(b, del))
    requires Subtractable(ledger, CastVoteOverride(b, del))
    ensures TotalsAgree(AfterCastVoteOverride(ledger, b, del))
  {
    hide WSum, Weigh;
    var next := AfterCastVoteOverride(ledger, b, del);
    var v, k, o := b.voteAccount, (del.stakeAccount, b.voteAccount), OverrideBy(b, del);
    forall side
      ensures On(next.totals, side) == WSum(next.votes, VoteOn(side)) + WSum(next.overrides, OverrideOn(side))
    {
      OverriddenInsert(ledger.overrides, k, o, v);
      if v in ledger.votes {
        VoteSums(ledger.votes, v, next.votes[v]);
      }
    }
  }

  lemma CastVoteOverrideVotes(bundles: seq<Bundle>, ledger: Ledger, b: Ballot, del: Delegated)
    requires Coherent(bundles) && VotesAgree(bundles, ledger) && OverridesAgree(bundles, ledger.overrides)
    requires LeafKnown(bundles, b, del) && InOrder(ledger, CastVoteOverride(b, del))
    requires Subtractable(ledger, CastVoteOverride(b, del))
    ensures VotesAgree(bundles, AfterCastVoteOverride(ledger, b, del))
  {
    hide Coherent, WSum, BundleOf, LeafFor, Weigh, OverridesAgree, OverriddenStake, OverriddenOn;
    var next := AfterCastVoteOverride(ledger, b, del);
    var k, o := (del.stakeAccount, b.voteAccount), OverrideBy(b, del);
    NewOverrideBound(bundles, ledger.overrides, b, del);
    forall v | v in next.votes ensures VoteAgrees(bundles, next.overrides, v, next.votes[v]) {
      assert VoteAgrees(bundles, ledger.overrides, v, ledger.votes[v]);
      OverriddenInsert(ledger.overrides, k, o, v);
    }
  }

  lemma CastVoteOverrideCaches(bundles: seq<Bundle>, ledger: Ledger, b: Ballot, del: Delegated)
    requires CachesAgree(ledger) && OverridesAgree(bundles, ledger.overrides)
    requires InOrder(ledger, CastVoteOverride(b, del)) && Subtractable(ledger, CastVoteOverride(b, del))
    ensures CachesAgree(AfterCastVoteOverride(ledger, b, del))
  {
    hide WSum, Weigh, OverridesAgree, OverriddenStake, OverriddenOn;
    var next := AfterCastVoteOverride(ledger, b, del);
    var k, o := (del.stakeAccount, b.voteAccount), OverrideBy(b, del);
    forall v | v !in next.votes ensures CacheAgrees(next, v) {
      assert CacheAgrees(ledger, v);
      OverriddenInsert(ledger.overrides, k, o, v);
      if v == b.voteAccount && CacheOf(ledger, v).totalStake == 0 {
        NoneOverridden(bundles, ledger.overrides, v);
      }
      forall side ensures On(CacheOf(next, v).lamports, side) == OverriddenOn(next.overrides, v, side) {
        assert On(CacheOf(ledger, v).lamports, side) == OverriddenOn(ledger.overrides, v, side);
      }
    }
  }

  lemma CastVoteOverrideKeeps(bundles: seq<Bundle>, ledger: Ledger, b: Ballot, del: Delegated)
    requires Coherent(bundles) && Invariant(bundles, ledger)
    requires LeafKnown(bundles, b, del) && InOrder(ledger, CastVoteOverride(b, del))
    requires Subtractable(ledger, CastVoteOverride(b, del))
    ensures Invariant(bundles, AfterCastVoteOverride(ledger, b, del))
  {
    hide Coherent, WSum, BundleOf, LeafFor, Weigh, OverridesAgree, TotalsAgree, VotesAgree, CachesAgree;
    var next := AfterCastVoteOverride(ledger, b, del);
    OverrideStaysAgreed(bundles, ledger.overrides, b, del, OverrideBy(b, del));
    CastVoteOverrideTotals(bundles, ledger, b, del);
    CastVoteOverrideVotes(bundles, ledger, b, del);
    CastVoteOverrideCaches(bundles, ledger, b, del);
    if b.voteAccount in ledger.votes {
      assert next.votes.Keys == ledger.votes.Keys;
    }
  }

  /** No overridden stake means no override at all. */
  lemma NoneOverridden(bundles: seq<Bundle>, overrides: map<OverrideKey, Override>, v: Pubkey)
    requires OverridesAgree(bundles, overrides) && OverriddenStake(overrides, v) == 0
    ensures forall side :: OverriddenOn(overrides, v, side) == 0
  {
    hide WSum, BundleOf, LeafFor, Weigh;
    forall k | k in overrides ensures k.1 != v {
      assert OverrideAgrees(bundles, k, overrides[k]);
      var w := Within(OverrideStake, VoteAccountOf, v);
      WSumPart(overrides, w, k);
      assert VoteAccountOf(k) == k.1;
      assert k.1 == v ==> w(k, overrides[k]) == OverrideStake(k, overrides[k]);
    }
    forall side ensures OverriddenOn(overrides, v, side) == 0 {
      var w := Within(OverrideOn(side), VoteAccountOf, v);
      forall k | k in overrides ensures w(k, overrides[k]) == 0 {
        assert VoteAccountOf(k) == k.1;
      }
      WSumZero(overrides, w);
    }
  }

  lemma {:induction false} WSumZero<K, V>(m: map<K, V>, w: (K, V) -> nat)
    requires forall k :: k in m ==> w(k, m[k]) == 0
    ensures WSum(m, w) == 0
    decreases |m|
  {
    if m != map[] {
      var k :| k in m;
      WSumRemove(m, w, k);
      WSumZero(m - {k}, w);
    }
  }

  lemma ModifyVoteOverrideKeeps(bundles: seq<Bundle>, ledger: Ledger, b: Ballot, del: Delegated)
    requires Invariant(bundles, ledger)
    requires LeafKnown(bundles, b, del) && InOrder(ledger, ModifyVoteOverride(b, del))
    requires Subtractable(ledger, ModifyVoteOverride(b, del))
    ensures Invariant(bundles, AfterModifyVoteOverride(ledger, b, del))
  {
    hide WSum, BundleOf, LeafFor, Weigh, OverridesAgree;
    var next := AfterModifyVoteOverride(ledger, b, del);
    var k := (del.stakeAccount, b.voteAccount);
    var o := next.overrides[k];
    SameStake(bundles, ledger.overrides, b, del);
    assert OverridesAgree(bundles, next.overrides) by {
      OverrideStaysAgreed(bundles, ledger.overrides, b, del, o);
    }
    assert TotalsAgree(next) by {
      OverriddenUpdate(ledger.overrides, k, o, b.voteAccount);
    }
    forall v | v in next.votes ensures VoteAgrees(bundles, next.overrides, v, next.votes[v]) {
      assert VoteAgrees(bundles, ledger.overrides, v, ledger.votes[v]);
      OverriddenUpdate(ledger.overrides, k, o, v);
    }
    forall v | v !in next.votes ensures CacheAgrees(next, v) {
      assert CacheAgrees(ledger, v);
      OverriddenUpdate(ledger.overrides, k, o, v);
    }
    assert next.overrides.Keys == ledger.overrides.Keys;
  }

  lemma SameStake(bundles: seq<Bundle>, overrides: map<OverrideKey, Override>, b: Ballot, del: Delegated)
    requires OverridesAgree(bundles, overrides) && LeafKnown(bundles, b, del)
    requires (del.stakeAccount, b.voteAccount) in overrides
    ensures overrides[(del.stakeAccount, b.voteAccount)].stake == del.leaf.activeStake
  {
    hide BundleOf, LeafFor, Weigh;
    var k := (del.stakeAccount, b.voteAccount);
    assert OverrideAgrees(bundles, k, overrides[k]);
  }
}
