/** A freshly generated snapshot is accepted by the verifier. */
module GenerateLaws {
  import opened Bytes
  import opened Sorting
  import opened Snapshot
  import opened SnapshotLaws
  import opened Generate
  import opened Verifier
  import opened VerifierStore
  import opened VerifierLaws

  /** A leaf of a voter's bundle is a scanned account delegating to that voter. */
  lemma LeafHasAccount(bank: Bank, scan: seq<ScannedAccount>, voter: Pubkey, leaf: StakeLeaf) returns (i: nat)
    requires leaf in LeavesOf(bank, scan, voter)
    ensures i < |scan| && scan[i].key == leaf.stakeAccount && DelegatesTo(scan[i], voter)
    ensures leaf == StakeLeaf(WalletOf(bank, scan[i].state.value), scan[i].key, scan[i].state.value.activeStake)
  {
    var ds := DelegationsTo(scan, voter);
    var j :| 0 <= j < |LeavesOf(bank, scan, voter)| && LeavesOf(bank, scan, voter)[j] == leaf;
    assert leaf == LeafOf(bank.poolVoters)(ds[j]);
    i := FlatMapFrom(Own(voter), scan, ds[j]);
  }

  /** Stake accounts of one fresh bundle: distinct, and each delegating here. */
  lemma FreshStakes(trees: Trees, bank: Bank, scan: seq<ScannedAccount>, i: nat)
    requires TotalsFit(bank, scan) && DistinctKeys(AccountKey, scan) && i < |Voters(scan)|
    ensures i < |BundlesOf(trees, bank, scan)|
    ensures var b := BundlesOf(trees, bank, scan)[i];
            && DistinctKeys(StakeKey, b.stakes)
            && forall j :: 0 <= j < |b.stakes| ==>
                 exists a :: a in scan && a.key == StakeKey(b.stakes[j]) && DelegatesTo(a, VoteKey(b))
  {
    hide Voters, SortedSet, LeavesOf, BundlesOf, TotalsFit, DelegatesTo, DistinctKeys;
    FreshBundleAt(trees, bank, scan, i);
    var b := BundlesOf(trees, bank, scan)[i];
    var leaves := LeavesOf(bank, scan, VoteKey(b));
    FreshStakesPermute(trees, bank, scan, i);
    LeavesPermute(bank, scan, scan, VoteKey(b));
    DistinctPermute(StakeKey, leaves, b.stakes);
    forall j | 0 <= j < |b.stakes|
      ensures exists a :: a in scan && a.key == StakeKey(b.stakes[j]) && DelegatesTo(a, VoteKey(b))
    {
      assert b.stakes[j] in multiset(leaves);
      var k := LeafHasAccount(bank, scan, VoteKey(b), b.stakes[j]);
      assert scan[k] in scan;
    }
  }

  lemma FreshStakesPermute(trees: Trees, bank: Bank, scan: seq<ScannedAccount>, i: nat)
    requires TotalsFit(bank, scan) && i < |Voters(scan)| && i < |BundlesOf(trees, bank, scan)|
    ensures var b := BundlesOf(trees, bank, scan)[i];
            multiset(b.stakes) == multiset(LeavesOf(bank, scan, VoteKey(b)))
  {
    hide Voters, SortedSet, LeavesOf, BundleFor;
    var order := SortedSet(Voters(scan));
    SortedSetEnumerates(Voters(scan));
    var raw := Map(BundleFor(trees, bank, scan), order);
    assert BundlesOf(trees, bank, scan)[i] == WithProof(trees, raw, i);
    assert raw[i] == BundleFor(trees, bank, scan)(order[i]);
    BundleForStakes(trees, bank, scan, order[i]);
  }

  lemma BundleForStakes(trees: Trees, bank: Bank, scan: seq<ScannedAccount>, voter: Pubkey)
    ensures var b := BundleFor(trees, bank, scan)(voter);
            VoteKey(b) == voter && multiset(b.stakes) == multiset(LeavesOf(bank, scan, voter))
  {
    hide TotalStake, LeavesOf, SortByKey;
    SortPermutes(StakeKey, LeavesOf(bank, scan, voter));
  }

  /** Disjoint bundles, each without repeats, have no repeat in all. */
  lemma {:induction false} DistinctAcross(bundles: seq<Bundle>)
    requires forall i :: 0 <= i < |bundles| ==> DistinctKeys(StakeKey, bundles[i].stakes)
    requires forall i, j :: 0 <= i < j < |bundles| ==> KeysOf(bundles[i].stakes) !! KeysOf(bundles[j].stakes)
    ensures DistinctKeys(StakeKey, AllStakes(bundles))
    ensures forall k :: k in KeysOf(AllStakes(bundles)) ==>
              exists i :: 0 <= i < |bundles| && k in KeysOf(bundles[i].stakes)
  {
    if bundles != [] {
      var n := |bundles| - 1;
      var init := AllStakes(bundles[..n]);
      DistinctAcross(bundles[..n]);
      KeysConcat(init, bundles[n].stakes);
      forall i, j | 0 <= i < |init| && 0 <= j < |bundles[n].stakes|
        ensures StakeKey(init[i]) != StakeKey(bundles[n].stakes[j])
      {
        assert StakeKey(init[i]) in KeysOf(init);
        assert StakeKey(bundles[n].stakes[j]) in KeysOf(bundles[n].stakes);
      }
      DistinctConcat(StakeKey, init, bundles[n].stakes);
    }
  }

  lemma FreshDisjoint(trees: Trees, bank: Bank, scan: seq<ScannedAccount>, i: nat, j: nat)
    requires TotalsFit(bank, scan) && DistinctKeys(AccountKey, scan) && i < j < |Voters(scan)|
    ensures |BundlesOf(trees, bank, scan)| == |Voters(scan)|
    ensures KeysOf(BundlesOf(trees, bank, scan)[i].stakes) !! KeysOf(BundlesOf(trees, bank, scan)[j].stakes)
  {
    hide Voters, SortedSet, BundlesOf, DelegatesTo, KeysOf, DistinctKeys, TotalsFit;
    FreshBundleAt(trees, bank, scan, i);
    SortedSetEnumerates(Voters(scan));
    var bundles := BundlesOf(trees, bank, scan);
    FreshKeys(trees, bank, scan);
    DistinctAt(VoteKey, bundles, i, j);
    forall k | k in KeysOf(bundles[i].stakes) && k in KeysOf(bundles[j].stakes) ensures false {
      var a := AccountBehind(trees, bank, scan, i, k);
      var b := AccountBehind(trees, bank, scan, j, k);
      OneVoter(scan, a, b, VoteKey(bundles[i]), VoteKey(bundles[j]));
    }
  }

  lemma DistinctAt<T>(key: T -> Pubkey, s: seq<T>, i: nat, j: nat)
    requires DistinctKeys(key, s) && i < j < |s|
    ensures key(s[i]) != key(s[j])
  {
  }

  /** A stake key of a bundle goes back to an account that delegates to its voter. */
  lemma AccountBehind(trees: Trees, bank: Bank, scan: seq<ScannedAccount>, i: nat, k: Pubkey)
    returns (a: ScannedAccount)
    requires TotalsFit(bank, scan) && DistinctKeys(AccountKey, scan) && i < |Voters(scan)|
    requires i < |BundlesOf(trees, bank, scan)| && k in KeysOf(BundlesOf(trees, bank, scan)[i].stakes)
    ensures a in scan && a.key == k && DelegatesTo(a, VoteKey(BundlesOf(trees, bank, scan)[i]))
  {
    hide Voters, BundlesOf, DelegatesTo, DistinctKeys, TotalsFit;
    FreshStakes(trees, bank, scan, i);
    var b := BundlesOf(trees, bank, scan)[i];
    var j :| 0 <= j < |b.stakes| && StakeKey(b.stakes[j]) == k;
    a :| a in scan && a.key == StakeKey(b.stakes[j]) && DelegatesTo(a, VoteKey(b));
  }

  /** One key is one account, and one account has one voter. */
  lemma OneVoter(scan: seq<ScannedAccount>, a: ScannedAccount, b: ScannedAccount, v: Pubkey, w: Pubkey)
    requires DistinctKeys(AccountKey, scan) && a in scan && b in scan && a.key == b.key
    requires DelegatesTo(a, v) && DelegatesTo(b, w)
    ensures v == w
  {
    var i :| 0 <= i < |scan| && scan[i] == a;
    var j :| 0 <= j < |scan| && scan[j] == b;
    assert AccountKey(scan[i]) == AccountKey(scan[j]);
  }

  /** The wallet that votes with an account: the pool's, if its withdraw authority
      belongs to one, and else the withdraw authority. */
  function WalletOf(bank: Bank, s: StakeState): Pubkey
  {
    if s.withdrawer in bank.poolVoters then bank.poolVoters[s.withdrawer] else s.withdrawer
  }

  /** The wallet that votes for a vote account: its identity, or the default key. */
  function IdentityOf(bank: Bank, voter: Pubkey): Pubkey
  {
    match bank.identity(voter)
    case Some(id) => id
    case None => Zero()
  }

  /** Every account with stake has its leaf, with its wallet, in the bundle of its
      voter, with the voter's. */
  lemma AccountHasLeaf(trees: Trees, bank: Bank, scan: seq<ScannedAccount>, a: ScannedAccount) returns (i: nat, j: nat)
    requires TotalsFit(bank, scan) && a in scan && a.state.Some? && a.state.value.activeStake > 0
    ensures i < |BundlesOf(trees, bank, scan)| && j < |BundlesOf(trees, bank, scan)[i].stakes|
    ensures var b := BundlesOf(trees, bank, scan)[i];
            && VoteKey(b) == a.state.value.voter && StakeKey(b.stakes[j]) == a.key
            && b.stakes[j].activeStake == a.state.value.activeStake
            && b.stakes[j].votingWallet == WalletOf(bank, a.state.value)
            && b.meta.votingWallet == IdentityOf(bank, a.state.value.voter)
  {
    hide SortedSet, BundlesOf, LeavesOf, TotalsFit;
    var voter := a.state.value.voter;
    SortedSetEnumerates(Voters(scan));
    assert voter in Voters(scan);
    i :| 0 <= i < |SortedSet(Voters(scan))| && SortedSet(Voters(scan))[i] == voter;
    FreshBundleAt(trees, bank, scan, i);
    FreshStakesPermute(trees, bank, scan, i);
    FreshWallet(trees, bank, scan, i);
    var b := BundlesOf(trees, bank, scan)[i];
    var leaf := LeafOf(bank.poolVoters)(DelegationOf(a));
    AccountInLeaves(bank, scan, a);
    assert leaf in multiset(b.stakes);
    j :| 0 <= j < |b.stakes| && b.stakes[j] == leaf;
  }

  lemma FreshWallet(trees: Trees, bank: Bank, scan: seq<ScannedAccount>, i: nat)
    requires TotalsFit(bank, scan) && i < |Voters(scan)| && i < |BundlesOf(trees, bank, scan)|
    ensures var b := BundlesOf(trees, bank, scan)[i]; b.meta.votingWallet == IdentityOf(bank, VoteKey(b))
  {
    hide Voters, SortedSet, LeavesOf, BundleFor;
    var order := SortedSet(Voters(scan));
    SortedSetEnumerates(Voters(scan));
    var raw := Map(BundleFor(trees, bank, scan), order);
    assert BundlesOf(trees, bank, scan)[i] == WithProof(trees, raw, i);
    assert raw[i] == BundleFor(trees, bank, scan)(order[i]);
    WalletOfVoter(trees, bank, scan, order[i]);
  }

  lemma WalletOfVoter(trees: Trees, bank: Bank, scan: seq<ScannedAccount>, voter: Pubkey)
    ensures var b := BundleFor(trees, bank, scan)(voter);
            VoteKey(b) == voter && b.meta.votingWallet == IdentityOf(bank, voter)
  {
    hide TotalStake, LeavesOf, SortByKey;
  }

  /** Nothing else has one: behind each leaf is a scanned account with stake, from
      which the leaf and its bundle take voter, key, stake and wallets. */
  lemma LeafHasSource(trees: Trees, bank: Bank, scan: seq<ScannedAccount>, i: nat, j: nat) returns (a: ScannedAccount)
    requires TotalsFit(bank, scan) && i < |BundlesOf(trees, bank, scan)|
    requires j < |BundlesOf(trees, bank, scan)[i].stakes|
    ensures a in scan && a.state.Some? && a.state.value.activeStake > 0
    ensures var b := BundlesOf(trees, bank, scan)[i];
            && VoteKey(b) == a.state.value.voter && b.meta.votingWallet == IdentityOf(bank, a.state.value.voter)
            && b.stakes[j] == StakeLeaf(WalletOf(bank, a.state.value), a.key, a.state.value.activeStake)
  {
    hide SortedSet, BundlesOf, LeavesOf, TotalsFit, Voters;
    AsManyAsVoters(trees, bank, scan);
    FreshStakesPermute(trees, bank, scan, i);
    FreshWallet(trees, bank, scan, i);
    var b := BundlesOf(trees, bank, scan)[i];
    assert b.stakes[j] in multiset(b.stakes);
    var k := LeafHasAccount(bank, scan, VoteKey(b), b.stakes[j]);
    a := scan[k];
  }

  /** Generated bundles and their leaves come in numeric order. */
  lemma FreshInOrder(trees: Trees, bank: Bank, scan: seq<ScannedAccount>)
    requires TotalsFit(bank, scan) && Voters(scan) != {}
    ensures var r := BundlesOf(trees, bank, scan);
            && NumericallyAscending(VoteKey, r)
            && forall i :: 0 <= i < |r| ==> NumericallyAscending(StakeKey, r[i].stakes)
  {
    hide BundlesOf, Voters, TotalsFit, Remerklized, Remerklizable, NumericallyAscending;
    FreshIsRemerklized(trees, bank, scan);
    RemerklizedInOrder(trees, BundlesOf(trees, bank, scan));
  }

  lemma AccountInLeaves(bank: Bank, scan: seq<ScannedAccount>, a: ScannedAccount)
    requires a in scan && Counted(a)
    ensures LeafOf(bank.poolVoters)(DelegationOf(a)) in LeavesOf(bank, scan, a.state.value.voter)
  {
    var voter := a.state.value.voter;
    AccountInDelegations(scan, a);
    var ds := DelegationsTo(scan, voter);
    var k :| 0 <= k < |ds| && ds[k] == DelegationOf(a);
    assert LeavesOf(bank, scan, voter)[k] == LeafOf(bank.poolVoters)(ds[k]);
  }

  lemma {:induction false} AccountInDelegations(scan: seq<ScannedAccount>, a: ScannedAccount)
    requires a in scan && Counted(a)
    ensures DelegationOf(a) in DelegationsTo(scan, a.state.value.voter)
  {
    hide DelegationsTo, Voters;
    var n := |scan| - 1;
    assert scan == scan[..n] + [scan[n]];
    VotersStep(scan[..n], scan[n]);
    if a != scan[n] {
      AccountInDelegations(scan[..n], a);
    }
  }

  /** What generation produces passes all the checks made on upload. */
  lemma FreshPasses(trees: Trees, bank: Bank, scan: seq<ScannedAccount>)
    requires DistinctKeys(AccountKey, scan) && TotalsFit(bank, scan) && Voters(scan) != {}
    ensures var bundles := BundlesOf(trees, bank, scan);
            Valid(trees, SnapshotData(trees.metaRoot(Metas(bundles)), bundles, bank.slot))
  {
    hide Voters, BundlesOf, Valid, Remerklizable, Remerklized, KeysOf, AllStakes;
    var bundles := BundlesOf(trees, bank, scan);
    FreshIsRemerklized(trees, bank, scan);
    FreshKeys(trees, bank, scan);
    FreshBundleAt(trees, bank, scan, 0);
    SortedSetEnumerates(Voters(scan));
    forall i | 0 <= i < |bundles| ensures DistinctKeys(StakeKey, bundles[i].stakes) {
      FreshStakes(trees, bank, scan, i);
    }
    forall i, j | 0 <= i < j < |bundles| ensures KeysOf(bundles[i].stakes) !! KeysOf(bundles[j].stakes) {
      FreshDisjoint(trees, bank, scan, i, j);
    }
    DistinctAcross(bundles);
    RemerklizedPassesIff(trees, bundles, bank.slot);
  }
}
