/** The tally invariant, and what it means for the published totals: no more than
    the stake of the snapshot, and the stake that takes part but for rounding. */
module VotingLaws {
  import opened Bytes
  import opened Sorting
  import opened MapSums
  import opened Snapshot
  import opened Verifier
  import opened Voting

  // ----- looking accounts up in the snapshot

  function BundleOf(bundles: seq<Bundle>, v: Pubkey): Option<Bundle>
  {
    if bundles == [] then None
    else if VoteKey(bundles[|bundles| - 1]) == v then Some(bundles[|bundles| - 1])
    else BundleOf(bundles[..|bundles| - 1], v)
  }

  function LeafFor(stakes: seq<StakeLeaf>, account: Pubkey): Option<StakeLeaf>
  {
    if stakes == [] then None
    else if StakeKey(stakes[|stakes| - 1]) == account then Some(stakes[|stakes| - 1])
    else LeafFor(stakes[..|stakes| - 1], account)
  }

  lemma {:induction false} BundleOfAt(bundles: seq<Bundle>, i: nat)
    requires i < |bundles| && DistinctKeys(VoteKey, bundles)
    ensures BundleOf(bundles, VoteKey(bundles[i])) == Some(bundles[i])
  {
    if i < |bundles| - 1 {
      BundleOfAt(bundles[..|bundles| - 1], i);
    }
  }

  lemma {:induction false} LeafForAt(stakes: seq<StakeLeaf>, j: nat)
    requires j < |stakes| && DistinctKeys(StakeKey, stakes)
    ensures LeafFor(stakes, StakeKey(stakes[j])) == Some(stakes[j])
  {
    if j < |stakes| - 1 {
      LeafForAt(stakes[..|stakes| - 1], j);
    }
  }

  lemma {:induction false} BundleOfIn(bundles: seq<Bundle>, v: Pubkey) returns (i: nat)
    requires BundleOf(bundles, v).Some?
    ensures i < |bundles| && bundles[i] == BundleOf(bundles, v).value && VoteKey(bundles[i]) == v
  {
    i := |bundles| - 1;
    if VoteKey(bundles[i]) != v {
      i := BundleOfIn(bundles[..i], v);
    }
  }

  lemma {:induction false} LeafForIn(stakes: seq<StakeLeaf>, account: Pubkey) returns (j: nat)
    requires LeafFor(stakes, account).Some?
    ensures j < |stakes| && stakes[j] == LeafFor(stakes, account).value && StakeKey(stakes[j]) == account
  {
    j := |stakes| - 1;
    if StakeKey(stakes[j]) != account {
      j := LeafForIn(stakes[..j], account);
    }
  }

  // ----- the invariant

  datatype Side = Yes | No | Abstain

  function On(t: Tally, side: Side): nat
  {
    match side
    case Yes => t.yes
    case No => t.no
    case Abstain => t.abstain
  }

  function VoteOn(side: Side): (Pubkey, Vote) -> nat { (v: Pubkey, vote: Vote) => On(vote.lamports, side) }

  function OverrideOn(side: Side): (OverrideKey, Override) -> nat
  {
    (k: OverrideKey, o: Override) => On(o.lamports, side)
  }

  function OverrideStake(k: OverrideKey, o: Override): nat { o.stake }

  function VoteAccountOf(k: OverrideKey): Pubkey { k.1 }

  /** Stake overridden under one vote account, and the lamports those overrides carry. */
  ghost function OverriddenStake(overrides: map<OverrideKey, Override>, v: Pubkey): nat
  {
    WSum(overrides, Within(OverrideStake, VoteAccountOf, v))
  }

  ghost function OverriddenOn(overrides: map<OverrideKey, Override>, v: Pubkey, side: Side): nat
  {
    WSum(overrides, Within(OverrideOn(side), VoteAccountOf, v))
  }

  /** The published totals are the sum of the recorded votes and overrides. */
  ghost predicate TotalsAgree(ledger: Ledger)
  {
    forall side :: On(ledger.totals, side)
                   == WSum(ledger.votes, VoteOn(side)) + WSum(ledger.overrides, OverrideOn(side))
  }

  /** A vote weighs what its validator's stake is worth without the overrides. */
  ghost predicate VoteAgrees(bundles: seq<Bundle>, overrides: map<OverrideKey, Override>, v: Pubkey, vote: Vote)
  {
    && BundleOf(bundles, v).Some?
    && var active := BundleOf(bundles, v).value.meta.activeStake;
    && vote.overridden == OverriddenStake(overrides, v) <= active
    && Whole(vote.split)
    && vote.lamports == Weigh(active - vote.overridden, vote.split)
  }

  ghost predicate VotesAgree(bundles: seq<Bundle>, ledger: Ledger)
  {
    forall v {:trigger VoteAgrees(bundles, ledger.overrides, v, ledger.votes[v])} ::
      v in ledger.votes ==> VoteAgrees(bundles, ledger.overrides, v, ledger.votes[v])
  }

  /** An override weighs what its own stake leaf is worth. */
  ghost predicate OverrideAgrees(bundles: seq<Bundle>, k: OverrideKey, o: Override)
  {
    && BundleOf(bundles, k.1).Some?
    && LeafFor(BundleOf(bundles, k.1).value.stakes, k.0).Some?
    && o.stake == LeafFor(BundleOf(bundles, k.1).value.stakes, k.0).value.activeStake
    && o.stake > 0
    && Whole(o.split)
    && o.lamports == Weigh(o.stake, o.split)
  }

  ghost predicate OverridesAgree(bundles: seq<Bundle>, overrides: map<OverrideKey, Override>)
  {
    forall k {:trigger OverrideAgrees(bundles, k, overrides[k])} ::
      k in overrides ==> OverrideAgrees(bundles, k, overrides[k])
  }

  /** Until the validator votes, its cache sums up the overrides so far. */
  ghost predicate CacheAgrees(ledger: Ledger, v: Pubkey)
  {
    && CacheOf(ledger, v).totalStake == OverriddenStake(ledger.overrides, v)
    && forall side :: On(CacheOf(ledger, v).lamports, side) == OverriddenOn(ledger.overrides, v, side)
  }

  ghost predicate CachesAgree(ledger: Ledger)
  {
    && (forall v {:trigger CacheAgrees(ledger, v)} :: v !in ledger.votes ==> CacheAgrees(ledger, v))
    && (forall k :: k in ledger.overrides ==> k.1 in ledger.caches)
  }

  ghost predicate Invariant(bundles: seq<Bundle>, ledger: Ledger)
  {
    && TotalsAgree(ledger)
    && VotesAgree(bundles, ledger)
    && OverridesAgree(bundles, ledger.overrides)
    && CachesAgree(ledger)
    && ledger.voteCount == |ledger.votes| + |ledger.overrides|
  }

  lemma InitialInvariant(bundles: seq<Bundle>)
    ensures Invariant(bundles, INITIAL)
  {
  }

  // ----- weights

  lemma ShareBound(stake: nat, s: Split)
    requires Whole(s)
    ensures Weigh(stake, s).Size() <= stake
  {
    var a, b, c := stake * s.yes, stake * s.no, stake * s.abstain;
    assert a + b + c == stake * (s.yes + s.no + s.abstain) == stake * BASIS_POINTS_MAX;
  }

  /** Each part is less than a lamport short, and together they fall short of the
      stake by at most two. */
  lemma ShareRounding(stake: nat, s: Split)
    requires Whole(s)
    ensures stake <= Weigh(stake, s).Size() + 2
  {
    var a, b, c := stake * s.yes, stake * s.no, stake * s.abstain;
    assert a + b + c == stake * (s.yes + s.no + s.abstain) == stake * BASIS_POINTS_MAX;
  }

  // ----- a validator's overrides never exceed its stake

  function KeyUnder(v: Pubkey): StakeLeaf -> OverrideKey { (leaf: StakeLeaf) => (leaf.stakeAccount, v) }

  /** Every override under `v` belongs to a leaf of that bundle. */
  lemma OverridesListed(bundles: seq<Bundle>, overrides: map<OverrideKey, Override>, v: Pubkey, i: nat)
    requires OverridesAgree(bundles, overrides)
    requires i < |bundles| && BundleOf(bundles, v) == Some(bundles[i])
    ensures forall k :: k in overrides && k.1 == v ==> k in Map(KeyUnder(v), bundles[i].stakes)
  {
    hide BundleOf, LeafFor, Weigh;
    var stakes := bundles[i].stakes;
    forall k | k in overrides && k.1 == v ensures k in Map(KeyUnder(v), stakes) {
      assert OverrideAgrees(bundles, k, overrides[k]);
      var j := LeafForIn(stakes, k.0);
      assert Map(KeyUnder(v), stakes)[j] == KeyUnder(v)(stakes[j]) == k;
    }
  }

  lemma KeysDistinct(stakes: seq<StakeLeaf>, v: Pubkey)
    requires DistinctKeys(StakeKey, stakes)
    ensures forall a, b :: 0 <= a < b < |stakes| ==> Map(KeyUnder(v), stakes)[a] != Map(KeyUnder(v), stakes)[b]
  {
    var keys := Map(KeyUnder(v), stakes);
    forall a, b | 0 <= a < b < |stakes| ensures keys[a] != keys[b] {
      assert keys[a] == KeyUnder(v)(stakes[a]) && keys[b] == KeyUnder(v)(stakes[b]);
      assert StakeKey(stakes[a]) != StakeKey(stakes[b]);
    }
  }

  ghost function StakeUnder(overrides: map<OverrideKey, Override>, v: Pubkey): OverrideKey -> nat
  {
    At(overrides, Within(OverrideStake, VoteAccountOf, v))
  }

  lemma OverrideBelowLeaf(bundles: seq<Bundle>, overrides: map<OverrideKey, Override>, v: Pubkey, i: nat, j: nat)
    requires OverridesAgree(bundles, overrides)
    requires i < |bundles| && BundleOf(bundles, v) == Some(bundles[i]) && DistinctKeys(StakeKey, bundles[i].stakes)
    requires j < |bundles[i].stakes|
    ensures StakeUnder(overrides, v)(KeyUnder(v)(bundles[i].stakes[j])) <= StakeAmount(bundles[i].stakes[j])
  {
    hide BundleOf, LeafFor, Weigh;
    var leaf := bundles[i].stakes[j];
    var key := (leaf.stakeAccount, v);
    assert KeyUnder(v)(leaf) == key;
    if key in overrides {
      assert OverrideAgrees(bundles, key, overrides[key]);
      LeafForAt(bundles[i].stakes, j);
      assert StakeKey(leaf) == key.0;
      var w := Within(OverrideStake, VoteAccountOf, v);
      assert At(overrides, w)(key) == w(key, overrides[key]);
      assert VoteAccountOf(key) == v;
      assert w(key, overrides[key]) == OverrideStake(key, overrides[key]) == leaf.activeStake;
    }
  }

  lemma OverriddenBound(bundles: seq<Bundle>, overrides: map<OverrideKey, Override>, v: Pubkey)
    requires Coherent(bundles) && OverridesAgree(bundles, overrides) && BundleOf(bundles, v).Some?
    ensures OverriddenStake(overrides, v) <= BundleOf(bundles, v).value.meta.activeStake
  {
    hide TotalStake, WSum, BundleOf, OverridesAgree, KeyUnder, AllStakes;
    var i := BundleOfIn(bundles, v);
    var stakes := bundles[i].stakes;
    DistinctInBundle(bundles, i);
    OverridesListed(bundles, overrides, v, i);
    KeysDistinct(stakes, v);
    WSumAsList(overrides, Within(OverrideStake, VoteAccountOf, v), Map(KeyUnder(v), stakes));
    forall j | 0 <= j < |stakes|
      ensures Map(StakeUnder(overrides, v), Map(KeyUnder(v), stakes))[j] <= Map(StakeAmount, stakes)[j]
    {
      OverrideBelowLeaf(bundles, overrides, v, i, j);
    }
    TermwiseBelow(Map(StakeUnder(overrides, v), Map(KeyUnder(v), stakes)), Map(StakeAmount, stakes));
    TotalIs(stakes);
  }

  lemma TotalIs(stakes: seq<StakeLeaf>)
    ensures TotalStake(stakes) == Sum(Map(StakeAmount, stakes))
  {
  }

  lemma {:induction false} TermwiseBelow(s: seq<nat>, t: seq<nat>)
    requires |s| == |t| && forall i :: 0 <= i < |s| ==> s[i] <= t[i]
    ensures Sum(s) <= Sum(t)
  {
    if s != [] {
      TermwiseBelow(s[..|s| - 1], t[..|t| - 1]);
    }
  }

  lemma DistinctInBundle(bundles: seq<Bundle>, i: nat)
    requires Coherent(bundles) && i < |bundles|
    ensures DistinctKeys(StakeKey, bundles[i].stakes)
  {
    hide TotalStake;
    CoherentPrefix(bundles, i + 1);
    assert bundles[..i + 1] == bundles[..i] + [bundles[i]];
    CoherentStep(bundles[..i], bundles[i]);
  }

  // ----- the published totals never exceed the snapshot's stake

  function VoteSize(v: Pubkey, vote: Vote): nat { vote.lamports.Size() }

  function OverrideSize(k: OverrideKey, o: Override): nat { o.lamports.Size() }

  lemma {:induction false} SizeOfVotes(votes: map<Pubkey, Vote>)
    ensures WSum(votes, VoteSize) == WSum(votes, VoteOn(Yes)) + WSum(votes, VoteOn(No)) + WSum(votes, VoteOn(Abstain))
    decreases |votes|
  {
    if votes != map[] {
      var k :| k in votes;
      SizeOfVotes(votes - {k});
      WSumRemove(votes, VoteSize, k);
      WSumRemove(votes, VoteOn(Yes), k);
      WSumRemove(votes, VoteOn(No), k);
      WSumRemove(votes, VoteOn(Abstain), k);
    }
  }

  lemma {:induction false} SizeOfOverrides(m: map<OverrideKey, Override>)
    ensures WSum(m, OverrideSize)
            == WSum(m, OverrideOn(Yes)) + WSum(m, OverrideOn(No)) + WSum(m, OverrideOn(Abstain))
    decreases |m|
  {
    if m != map[] {
      var k :| k in m;
      SizeOfOverrides(m - {k});
      WSumRemove(m, OverrideSize, k);
      WSumRemove(m, OverrideOn(Yes), k);
      WSumRemove(m, OverrideOn(No), k);
      WSumRemove(m, OverrideOn(Abstain), k);
    }
  }

  /** What is left to a validator that voted, by vote account. */
  ghost function Remaining(bundles: seq<Bundle>, overrides: map<OverrideKey, Override>): (Pubkey, Vote) -> nat
  {
    (v: Pubkey, vote: Vote) =>
      if BundleOf(bundles, v).Some? && BundleOf(bundles, v).value.meta.activeStake >= OverriddenStake(overrides, v)
      then BundleOf(bundles, v).value.meta.activeStake - OverriddenStake(overrides, v) else 0
  }

  lemma VotesBound(bundles: seq<Bundle>, ledger: Ledger)
    requires VotesAgree(bundles, ledger)
    ensures WSum(ledger.votes, VoteSize) <= WSum(ledger.votes, Remaining(bundles, ledger.overrides))
  {
    hide WSum, BundleOf, Weigh;
    forall v | v in ledger.votes
      ensures VoteSize(v, ledger.votes[v]) <= Remaining(bundles, ledger.overrides)(v, ledger.votes[v])
    {
      assert VoteAgrees(bundles, ledger.overrides, v, ledger.votes[v]);
      ShareBound(BundleOf(bundles, v).value.meta.activeStake - ledger.votes[v].overridden, ledger.votes[v].split);
    }
    WSumBelow(ledger.votes, VoteSize, Remaining(bundles, ledger.overrides));
  }

  lemma OverridesBound(bundles: seq<Bundle>, overrides: map<OverrideKey, Override>)
    requires OverridesAgree(bundles, overrides)
    ensures WSum(overrides, OverrideSize) <= WSum(overrides, OverrideStake)
  {
    hide WSum, BundleOf, LeafFor, Weigh;
    forall k | k in overrides ensures OverrideSize(k, overrides[k]) <= OverrideStake(k, overrides[k]) {
      assert OverrideAgrees(bundles, k, overrides[k]);
      ShareBound(overrides[k].stake, overrides[k].split);
    }
    WSumBelow(overrides, OverrideSize, OverrideStake);
  }

  lemma AccountsListed(bundles: seq<Bundle>, ledger: Ledger)
    requires VotesAgree(bundles, ledger) && OverridesAgree(bundles, ledger.overrides)
    ensures forall v :: v in ledger.votes ==> v in Map(VoteKey, bundles)
    ensures forall k :: k in ledger.overrides ==> VoteAccountOf(k) in Map(VoteKey, bundles)
  {
    hide BundleOf, LeafFor, Weigh, WSum;
    forall v | v in ledger.votes ensures v in Map(VoteKey, bundles) {
      assert VoteAgrees(bundles, ledger.overrides, v, ledger.votes[v]);
      var i := BundleOfIn(bundles, v);
      assert Map(VoteKey, bundles)[i] == v;
    }
    forall k | k in ledger.overrides ensures VoteAccountOf(k) in Map(VoteKey, bundles) {
      assert OverrideAgrees(bundles, k, ledger.overrides[k]);
      var i := BundleOfIn(bundles, k.1);
      assert Map(VoteKey, bundles)[i] == k.1;
    }
  }

  /** What is counted under one vote account: the vote that is left, and the overrides. */
  ghost function Counted(bundles: seq<Bundle>, ledger: Ledger): Pubkey -> nat
  {
    var left := At(ledger.votes, Remaining(bundles, ledger.overrides));
    var taken := GroupSum(ledger.overrides, OverrideStake, VoteAccountOf);
    (v: Pubkey) => left(v) + taken(v)
  }

  lemma CountedBelow(bundles: seq<Bundle>, ledger: Ledger, i: nat)
    requires Coherent(bundles) && OverridesAgree(bundles, ledger.overrides) && i < |bundles|
    ensures Counted(bundles, ledger)(VoteKey(bundles[i])) <= BundleStake(bundles[i])
  {
    hide BundleOf, WSum, OverridesAgree, AllStakes, TotalStake;
    BundleOfAt(bundles, i);
    OverriddenBound(bundles, ledger.overrides, VoteKey(bundles[i]));
    assert GroupSum(ledger.overrides, OverrideStake, VoteAccountOf)(VoteKey(bundles[i]))
           == OverriddenStake(ledger.overrides, VoteKey(bundles[i]));
  }

  /** Per vote account, votes and overrides together stay within its stake. */
  lemma ByAccount(bundles: seq<Bundle>, ledger: Ledger)
    requires Coherent(bundles) && VotesAgree(bundles, ledger) && OverridesAgree(bundles, ledger.overrides)
    ensures WSum(ledger.votes, Remaining(bundles, ledger.overrides)) + WSum(ledger.overrides, OverrideStake)
            <= Total(bundles)
  {
    hide WSum, AllStakes, TotalStake, Total, VotesAgree, OverridesAgree, Remaining, GroupSum, At;
    var accounts := Map(VoteKey, bundles);
    AccountsListed(bundles, ledger);
    WSumAsList(ledger.votes, Remaining(bundles, ledger.overrides), accounts);
    WSumGrouped(ledger.overrides, OverrideStake, VoteAccountOf, accounts);
    SumAdd(At(ledger.votes, Remaining(bundles, ledger.overrides)),
           GroupSum(ledger.overrides, OverrideStake, VoteAccountOf), Counted(bundles, ledger), accounts);
    forall i | 0 <= i < |bundles| ensures Map(Counted(bundles, ledger), accounts)[i] <= Map(BundleStake, bundles)[i] {
      CountedBelow(bundles, ledger, i);
    }
    TermwiseBelow(Map(Counted(bundles, ledger), accounts), Map(BundleStake, bundles));
    TotalOfBundles(bundles);
  }

  lemma TotalOfBundles(bundles: seq<Bundle>)
    ensures Total(bundles) == Sum(Map(BundleStake, bundles))
  {
  }

  /** Nobody's stake is counted twice: what is published for, against and
      abstaining adds up to no more than the stake of the snapshot. */
  lemma TotalsWithinStake(bundles: seq<Bundle>, ledger: Ledger)
    requires Coherent(bundles) && Invariant(bundles, ledger)
    ensures ledger.totals.Size() <= Total(bundles)
  {
    hide WSum, Coherent, Total;
    SizeOfVotes(ledger.votes);
    SizeOfOverrides(ledger.overrides);
    VotesBound(bundles, ledger);
    OverridesBound(bundles, ledger.overrides);
    ByAccount(bundles, ledger);
    assert On(ledger.totals, Yes) == WSum(ledger.votes, VoteOn(Yes)) + WSum(ledger.overrides, OverrideOn(Yes));
    assert On(ledger.totals, No) == WSum(ledger.votes, VoteOn(No)) + WSum(ledger.overrides, OverrideOn(No));
    assert On(ledger.totals, Abstain)
           == WSum(ledger.votes, VoteOn(Abstain)) + WSum(ledger.overrides, OverrideOn(Abstain));
  }

  // ----- and they fall short of the stake voted with only by rounding

  /** The stake that takes part: what is left to each validator that voted, and
      what each override moved. */
  ghost function Participating(bundles: seq<Bundle>, ledger: Ledger): nat
  {
    WSum(ledger.votes, Remaining(bundles, ledger.overrides)) + WSum(ledger.overrides, OverrideStake)
  }

  /** The published totals are the participating stake but for at most two
      lamports of rounding for each vote and override. */
  lemma TotalsUpToRounding(bundles: seq<Bundle>, ledger: Ledger)
    requires Invariant(bundles, ledger)
    ensures ledger.totals.Size() <= Participating(bundles, ledger) <= ledger.totals.Size() + 2 * ledger.voteCount
  {
    hide WSum, Remaining;
    SizeOfVotes(ledger.votes);
    SizeOfOverrides(ledger.overrides);
    VotesBound(bundles, ledger);
    OverridesBound(bundles, ledger.overrides);
    VotesLoss(bundles, ledger);
    OverridesLoss(bundles, ledger.overrides);
    assert On(ledger.totals, Yes) == WSum(ledger.votes, VoteOn(Yes)) + WSum(ledger.overrides, OverrideOn(Yes));
    assert On(ledger.totals, No) == WSum(ledger.votes, VoteOn(No)) + WSum(ledger.overrides, OverrideOn(No));
    assert On(ledger.totals, Abstain)
           == WSum(ledger.votes, VoteOn(Abstain)) + WSum(ledger.overrides, OverrideOn(Abstain));
  }

  lemma VotesLoss(bundles: seq<Bundle>, ledger: Ledger)
    requires VotesAgree(bundles, ledger)
    ensures WSum(ledger.votes, Remaining(bundles, ledger.overrides))
            <= WSum(ledger.votes, VoteSize) + 2 * |ledger.votes|
  {
    hide WSum, BundleOf, Weigh;
    forall v | v in ledger.votes
      ensures Remaining(bundles, ledger.overrides)(v, ledger.votes[v]) <= VoteSize(v, ledger.votes[v]) + 2
    {
      assert VoteAgrees(bundles, ledger.overrides, v, ledger.votes[v]);
      ShareRounding(BundleOf(bundles, v).value.meta.activeStake - ledger.votes[v].overridden, ledger.votes[v].split);
    }
    WSumWithin(ledger.votes, Remaining(bundles, ledger.overrides), VoteSize, 2);
  }

  lemma OverridesLoss(bundles: seq<Bundle>, overrides: map<OverrideKey, Override>)
    requires OverridesAgree(bundles, overrides)
    ensures WSum(overrides, OverrideStake) <= WSum(overrides, OverrideSize) + 2 * |overrides|
  {
    hide WSum, BundleOf, LeafFor, Weigh;
    forall k | k in overrides ensures OverrideStake(k, overrides[k]) <= OverrideSize(k, overrides[k]) + 2 {
      assert OverrideAgrees(bundles, k, overrides[k]);
      ShareRounding(overrides[k].stake, overrides[k].split);
    }
    WSumWithin(overrides, OverrideStake, OverrideSize, 2);
  }
}
