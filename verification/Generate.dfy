/** Snapshot generation from the scanned stake accounts.  The scan order and
    the iteration order of the voter map are arbitrary; the result is not. */
module Generate {
  import opened Bytes
  import opened Hashing
  import opened Sorting
  import opened Filtering
  import opened Snapshot
  import opened SnapshotLaws
  import MT = MerkleTree

  /** A decoded stake state, with the stake already in effect at this epoch. */
  datatype StakeState = StakeState(voter: Pubkey, staker: Pubkey, withdrawer: Pubkey, activeStake: u64)

  /** A scanned account; no state when it is not an initialised stake account. */
  datatype ScannedAccount = ScannedAccount(key: Pubkey, state: Option<StakeState>)

  datatype Delegation = Delegation(stakeAccount: Pubkey, staker: Pubkey, withdrawer: Pubkey, lamports: u64)

  /** What else the bank supplies: wallet overrides by withdraw authority, the
      identity of each vote account if it has one, and the slot. */
  datatype Bank = Bank(poolVoters: map<Pubkey, Pubkey>, identity: Pubkey -> Option<Pubkey>, slot: u64)

  // ----- specification

  predicate Counted(a: ScannedAccount)
  {
    a.state.Some? && a.state.value.activeStake > 0
  }

  predicate DelegatesTo(a: ScannedAccount, voter: Pubkey)
  {
    Counted(a) && a.state.value.voter == voter
  }

  function DelegationOf(a: ScannedAccount): Delegation
    requires Counted(a)
  {
    Delegation(a.key, a.state.value.staker, a.state.value.withdrawer, a.state.value.activeStake)
  }

  function Own(voter: Pubkey): ScannedAccount -> seq<Delegation>
  {
    (a: ScannedAccount) => if DelegatesTo(a, voter) then [DelegationOf(a)] else []
  }

  /** The delegations to `voter`, in scan order. */
  function DelegationsTo(scan: seq<ScannedAccount>, voter: Pubkey): seq<Delegation>
  {
    FlatMap(Own(voter), scan)
  }

  function Voters(scan: seq<ScannedAccount>): set<Pubkey>
  {
    set a | a in scan && Counted(a) :: a.state.value.voter
  }

  /** A stake leaf; the withdraw authority votes unless a pool override exists. */
  function LeafOf(poolVoters: map<Pubkey, Pubkey>): Delegation -> StakeLeaf
  {
    (d: Delegation) =>
      StakeLeaf(if d.withdrawer in poolVoters then poolVoters[d.withdrawer] else d.withdrawer,
                d.stakeAccount, d.lamports)
  }

  function LeavesOf(bank: Bank, scan: seq<ScannedAccount>, voter: Pubkey): seq<StakeLeaf>
  {
    Map(LeafOf(bank.poolVoters), DelegationsTo(scan, voter))
  }

  function MetaFor(bank: Bank, voter: Pubkey): MetaLeaf
  {
    var id := bank.identity(voter);
    MetaLeaf(if id.Some? then id.value else Zero(), voter, Zero(), 0)
  }

  /** The bundle of one vote account. */
  function BundleFor(trees: Trees, bank: Bank, scan: seq<ScannedAccount>): Pubkey -> Bundle
  {
    (voter: Pubkey) => Derive(trees, Bundle(MetaFor(bank, voter), LeavesOf(bank, scan, voter), None))
  }

  /** One bundle per voter, in the order of the vote accounts, each with its proof. */
  function BundlesOf(trees: Trees, bank: Bank, scan: seq<ScannedAccount>): seq<Bundle>
  {
    WithProofs(trees, Map(BundleFor(trees, bank, scan), SortedSet(Voters(scan))))
  }

  /** Every voter's total fits in 64 bits; otherwise the addition panics. */
  predicate TotalsFit(bank: Bank, scan: seq<ScannedAccount>)
  {
    forall voter :: voter in Voters(scan) ==> TotalStake(LeavesOf(bank, scan, voter)) <= U64_MAX
  }

  // ----- collecting delegations

  lemma {:induction false} DelegationsToEmpty(scan: seq<ScannedAccount>, voter: Pubkey)
    ensures DelegationsTo(scan, voter) == [] <==> voter !in Voters(scan)
  {
    if scan != [] {
      var init := scan[..|scan| - 1];
      DelegationsToEmpty(init, voter);
      assert scan == init + [scan[|scan| - 1]];
    }
  }

  /** The map built by the scan: one entry per voter, in scan order. */
  method CollectStakeDelegations(scan: seq<ScannedAccount>) returns (m: map<Pubkey, seq<Delegation>>)
    ensures m.Keys == Voters(scan)
    ensures forall v :: v in m ==> m[v] == DelegationsTo(scan, v) && m[v] != []
  {
    hide Voters, DelegationsTo;
    m := map[];
    NothingCollected(scan);
    for i := 0 to |scan|
      invariant Collected(m, scan[..i])
    {
      var a := scan[i];
      assert scan[..i + 1] == scan[..i] + [a];
      CollectOne(m, scan[..i], a);
      if a.state.Some? && a.state.value.activeStake > 0 {
        var voter := a.state.value.voter;
        var sofar := if voter in m then m[voter] else [];
        m := m[voter := sofar + [DelegationOf(a)]];
      }
    }
    assert scan[..|scan|] == scan;
    forall v | v in m ensures m[v] != [] {
      DelegationsToEmpty(scan, v);
    }
  }

  ghost predicate Collected(m: map<Pubkey, seq<Delegation>>, scan: seq<ScannedAccount>)
  {
    m.Keys == Voters(scan) && forall v :: v in m ==> m[v] == DelegationsTo(scan, v)
  }

  lemma NothingCollected(scan: seq<ScannedAccount>)
    ensures Collected(map[], scan[..0])
  {
  }

  lemma CollectOne(m: map<Pubkey, seq<Delegation>>, init: seq<ScannedAccount>, a: ScannedAccount)
    requires Collected(m, init)
    ensures !Counted(a) ==> Collected(m, init + [a])
    ensures Counted(a) ==>
              var voter := a.state.value.voter;
              Collected(m[voter := (if voter in m then m[voter] else []) + [DelegationOf(a)]], init + [a])
  {
    hide Voters, DelegationsTo;
    VotersStep(init, a);
    if Counted(a) {
      DelegationsToEmpty(init, a.state.value.voter);
    }
  }

  /** What one more account adds: at most one voter, and one delegation to it. */
  lemma VotersStep(init: seq<ScannedAccount>, a: ScannedAccount)
    ensures Voters(init + [a]) == Voters(init) + if Counted(a) then {a.state.value.voter} else {}
    ensures forall v :: DelegationsTo(init + [a], v)
                        == DelegationsTo(init, v) + if DelegatesTo(a, v) then [DelegationOf(a)] else []
  {
    var all := init + [a];
    assert forall x :: x in all <==> x in init || x == a;
    assert all[..|init|] == init;
  }

  // ----- building the snapshot

  /** Closure run for each voter; no bundle when the stake sum overflows. */
  method BuildBundle(h: Hasher, bank: Bank, voter: Pubkey, delegations: seq<Delegation>,
                     ghost scan: seq<ScannedAccount>)
    returns (b: Option<Bundle>)
    requires delegations == DelegationsTo(scan, voter) && delegations != []
    ensures b.Some? <==> TotalStake(LeavesOf(bank, scan, voter)) <= U64_MAX
    ensures b.Some? ==> b.value == BundleFor(TreesOf(h), bank, scan)(voter)
  {
    var leaves := Map(LeafOf(bank.poolVoters), delegations);
    var voteAccountStake := SumStakes(leaves);
    if voteAccountStake > U64_MAX {
      return None;
    }
    var stakes := SortByKey(StakeKey, leaves);
    SortPermutes(StakeKey, leaves);
    var stakeRoot := StakeRoot(h, stakes);
    var meta := MetaFor(bank, voter).(stakeRoot := stakeRoot.value, activeStake := voteAccountStake);
    return Some(Bundle(meta, stakes, None));
  }

  datatype Generated = Snapshot(data: SnapshotData) | Panicked

  /** `visited` lists, once each, the voters no longer in `remaining`. */
  ghost predicate Visited(voters: set<Pubkey>, remaining: set<Pubkey>, visited: seq<Pubkey>)
  {
    && remaining <= voters
    && (forall v :: v in visited <==> v in voters && v !in remaining)
    && DistinctKeys(Identity, visited)
  }

  /** The loop over the voter map, in whatever order the hash map yields it. */
  method BuildBundles(h: Hasher, bank: Bank, delegations: map<Pubkey, seq<Delegation>>, ghost scan: seq<ScannedAccount>)
    returns (r: Option<seq<Bundle>>)
    requires delegations.Keys == Voters(scan)
    requires forall v :: v in delegations ==> delegations[v] == DelegationsTo(scan, v) && delegations[v] != []
    ensures r.Some? <==> TotalsFit(bank, scan)
    ensures r.Some? ==> SortByKey(VoteKey, r.value) == Map(BundleFor(TreesOf(h), bank, scan), SortedSet(Voters(scan)))
  {
    hide Voters, DelegationsTo, SortedSet, BundleFor, TreesOf;
    var remaining := delegations.Keys;
    ghost var visited: seq<Pubkey> := [];
    var combined: seq<Bundle> := [];
    while remaining != {}
      invariant Visited(Voters(scan), remaining, visited)
      invariant combined == Map(BundleFor(TreesOf(h), bank, scan), visited)
      invariant forall v :: v in Voters(scan) && v !in remaining ==> TotalStake(LeavesOf(bank, scan, v)) <= U64_MAX
      decreases remaining
    {
      var voter :| voter in remaining;
      var b := BuildBundle(h, bank, voter, delegations[voter], scan);
      if b.None? {
        return None;
      }
      MapAppend(BundleFor(TreesOf(h), bank, scan), visited, voter);
      combined := combined + [b.value];
      visited := visited + [voter];
      remaining := remaining - {voter};
    }
    SortedByVoter(TreesOf(h), bank, scan, visited);
    return Some(combined);
  }

  /** `generate_meta_merkle_snapshot` from the scan onwards. */
  method GenerateMetaMerkleSnapshot(h: Hasher, bank: Bank, scan: seq<ScannedAccount>) returns (r: Generated)
    ensures r.Snapshot? <==> Voters(scan) != {} && TotalsFit(bank, scan)
    ensures r.Snapshot? ==> r.data.bundles == BundlesOf(TreesOf(h), bank, scan)
                            && r.data.root == TreesOf(h).metaRoot(Metas(r.data.bundles))
                            && r.data.slot == bank.slot
  {
    hide TotalsFit, Voters, DelegationsTo, SortedSet, BundleFor, TreesOf;
    var delegations := CollectStakeDelegations(scan);
    var combined := BuildBundles(h, bank, delegations, scan);
    if combined.None? {
      return Panicked;
    }
    var data := Assemble(h, combined.value, bank.slot);
    SortedSetEnumerates(Voters(scan));
    if data.None? {
      return Panicked;
    }
    return Snapshot(data.value);
  }

  /** Sorts by vote account, builds the meta tree and attaches the proofs. */
  method Assemble(h: Hasher, combined: seq<Bundle>, slot: u64) returns (r: Option<SnapshotData>)
    ensures r.None? <==> SortByKey(VoteKey, combined) == []
    ensures r.Some? ==> r.value.bundles == WithProofs(TreesOf(h), SortByKey(VoteKey, combined))
                        && r.value.root == TreesOf(h).metaRoot(Metas(r.value.bundles))
                        && r.value.slot == slot
  {
    var bundles := SortByKey(VoteKey, combined);
    var metaTree, root := MetaTree(h, Metas(bundles));
    if root.None? {
      return None;
    }
    WithProofsMetas(TreesOf(h), bundles);
    var proved := Zip(h, bundles, metaTree);
    return Some(SnapshotData(root.value, proved, slot));
  }

  /** The final `map`: pairs each bundle with its own proof. */
  method Zip(h: Hasher, bundles: seq<Bundle>, metaTree: MT.MerkleTree<Bytes32>) returns (proved: seq<Bundle>)
    requires MT.Represents(metaTree, h, true, MetaItems(h, Metas(bundles)))
    ensures proved == WithProofs(TreesOf(h), bundles)
  {
    proved := [];
    for i := 0 to |bundles|
      invariant proved == WithProofs(TreesOf(h), bundles)[..i]
    {
      var proof := MetaProof(h, metaTree, i, Metas(bundles));
      assert WithProofs(TreesOf(h), bundles)[i] == WithProof(TreesOf(h), bundles, i);
      proved := proved + [bundles[i].(proof := Some(proof))];
    }
  }

  /** Sorting the bundles, visited in any order, gives them in voter order. */
  lemma SortedByVoter(trees: Trees, bank: Bank, scan: seq<ScannedAccount>, visited: seq<Pubkey>)
    requires DistinctKeys(Identity, visited)
    requires forall v :: v in visited <==> v in Voters(scan)
    ensures SortByKey(VoteKey, Map(BundleFor(trees, bank, scan), visited))
            == Map(BundleFor(trees, bank, scan), SortedSet(Voters(scan)))
  {
    var order := SortedSet(Voters(scan));
    SortedSetEnumerates(Voters(scan));
    SameDistinct(visited, order);
    SortCanonical(Identity, visited, order);
    SortFixed(Identity, order);
    forall i | 0 <= i < |visited| ensures VoteKey(BundleFor(trees, bank, scan)(visited[i])) == Identity(visited[i]) {
      BundleForKey(trees, bank, scan, visited[i]);
    }
    SortMapCommutes(BundleFor(trees, bank, scan), Identity, VoteKey, visited);
  }

  lemma BundleForKey(trees: Trees, bank: Bank, scan: seq<ScannedAccount>, voter: Pubkey)
    ensures VoteKey(BundleFor(trees, bank, scan)(voter)) == voter
  {
  }

  // ----- order independence

  lemma VotersOfPermutation(s: seq<ScannedAccount>, t: seq<ScannedAccount>)
    requires multiset(s) == multiset(t)
    ensures Voters(s) == Voters(t)
  {
    forall a ensures a in s <==> a in t {
      assert a in multiset(s) <==> a in multiset(t);
    }
  }

  function AccountKey(a: ScannedAccount): Bytes32 { a.key }

  function DelegationKey(d: Delegation): Bytes32 { d.stakeAccount }

  lemma {:induction false} DelegationsDistinct(scan: seq<ScannedAccount>, voter: Pubkey)
    requires DistinctKeys(AccountKey, scan)
    ensures DistinctKeys(DelegationKey, DelegationsTo(scan, voter))
  {
    if scan != [] {
      var n := |scan| - 1;
      var init := DelegationsTo(scan[..n], voter);
      DelegationsDistinct(scan[..n], voter);
      forall i | 0 <= i < |init| ensures init[i].stakeAccount != scan[n].key {
        var j := FlatMapFrom(Own(voter), scan[..n], init[i]);
      }
    }
  }

  lemma LeavesPermute(bank: Bank, s: seq<ScannedAccount>, t: seq<ScannedAccount>, voter: Pubkey)
    requires multiset(s) == multiset(t) && DistinctKeys(AccountKey, s)
    ensures multiset(LeavesOf(bank, s, voter)) == multiset(LeavesOf(bank, t, voter))
    ensures DistinctKeys(StakeKey, LeavesOf(bank, s, voter))
    ensures TotalStake(LeavesOf(bank, s, voter)) == TotalStake(LeavesOf(bank, t, voter))
  {
    FlatMapPermutes(Own(voter), s, t);
    MapPermutes(LeafOf(bank.poolVoters), DelegationsTo(s, voter), DelegationsTo(t, voter));
    DelegationsDistinct(s, voter);
    TotalPermutes(LeavesOf(bank, s, voter), LeavesOf(bank, t, voter));
  }

  lemma TotalsPermute(bank: Bank, s: seq<ScannedAccount>, t: seq<ScannedAccount>)
    requires multiset(s) == multiset(t) && DistinctKeys(AccountKey, s)
    ensures TotalsFit(bank, s) <==> TotalsFit(bank, t)
  {
    VotersOfPermutation(s, t);
    forall voter | voter in Voters(s)
      ensures TotalStake(LeavesOf(bank, s, voter)) == TotalStake(LeavesOf(bank, t, voter))
    {
      LeavesPermute(bank, s, t, voter);
    }
  }

  /** Any two scans of the same accounts generate the identical snapshot: the
      same bundles in the same order with the same proofs, or the same panic. */
  lemma ScanOrderIrrelevant(trees: Trees, bank: Bank, s: seq<ScannedAccount>, t: seq<ScannedAccount>)
    requires multiset(s) == multiset(t) && DistinctKeys(AccountKey, s)
    ensures Voters(s) == Voters(t)
    ensures TotalsFit(bank, s) <==> TotalsFit(bank, t)
    ensures TotalsFit(bank, s) ==> BundlesOf(trees, bank, s) == BundlesOf(trees, bank, t)
  {
    hide Voters, SortedSet, BundleFor, LeavesOf;
    VotersOfPermutation(s, t);
    TotalsPermute(bank, s, t);
    if TotalsFit(bank, s) {
      var order := SortedSet(Voters(s));
      SortedSetEnumerates(Voters(s));
      forall i | 0 <= i < |order| ensures BundleFor(trees, bank, s)(order[i]) == BundleFor(trees, bank, t)(order[i]) {
        assert order[i] in Voters(s);
        SameBundle(trees, bank, s, t, order[i]);
      }
      MapAgree(BundleFor(trees, bank, s), BundleFor(trees, bank, t), order);
    }
  }

  lemma MapAgree<A, B>(f: A -> B, g: A -> B, s: seq<A>)
    requires forall i :: 0 <= i < |s| ==> f(s[i]) == g(s[i])
    ensures Map(f, s) == Map(g, s)
  {
  }

  lemma SameBundle(trees: Trees, bank: Bank, s: seq<ScannedAccount>, t: seq<ScannedAccount>, voter: Pubkey)
    requires multiset(s) == multiset(t) && DistinctKeys(AccountKey, s)
    requires voter in Voters(s) && TotalStake(LeavesOf(bank, s, voter)) <= U64_MAX
    ensures BundleFor(trees, bank, s)(voter) == BundleFor(trees, bank, t)(voter)
  {
    LeavesPermute(bank, s, t, voter);
    DelegationsToEmpty(s, voter);
    var a := Bundle(MetaFor(bank, voter), LeavesOf(bank, s, voter), None);
    var b := Bundle(MetaFor(bank, voter), LeavesOf(bank, t, voter), None);
    DeriveByCore(trees, a, b);
    DeriveIgnoresProof(trees, a, None);
    DeriveIgnoresProof(trees, b, None);
  }

  // ----- a fresh snapshot is already canonical

  lemma FreshKeys(trees: Trees, bank: Bank, scan: seq<ScannedAccount>)
    requires TotalsFit(bank, scan)
    ensures Ascending(VoteKey, BundlesOf(trees, bank, scan)) && DistinctKeys(VoteKey, BundlesOf(trees, bank, scan))
  {
    hide Voters, SortedSet, BundleFor, LeavesOf, Derive;
    var order, bundles := SortedSet(Voters(scan)), BundlesOf(trees, bank, scan);
    SortedSetEnumerates(Voters(scan));
    forall i | 0 <= i < |bundles| ensures VoteKey(bundles[i]) == Identity(order[i]) {
      FreshBundleAt(trees, bank, scan, i);
    }
  }

  /** `remerklize` leaves a freshly generated snapshot as it is. */
  lemma FreshIsRemerklized(trees: Trees, bank: Bank, scan: seq<ScannedAccount>)
    requires TotalsFit(bank, scan) && Voters(scan) != {}
    ensures Remerklizable(BundlesOf(trees, bank, scan))
    ensures Remerklized(trees, BundlesOf(trees, bank, scan)) == BundlesOf(trees, bank, scan)
  {
    hide Voters, SortedSet, BundleFor, LeavesOf, Derive;
    var bundles := BundlesOf(trees, bank, scan);
    SortedSetEnumerates(Voters(scan));
    FreshKeys(trees, bank, scan);
    forall i | 0 <= i < |bundles| ensures Derive(trees, bundles[i]) == bundles[i] && Derivable(bundles[i]) {
      FreshBundleAt(trees, bank, scan, i);
    }
    WithProofsTwice(trees, Map(BundleFor(trees, bank, scan), SortedSet(Voters(scan))));
    NormalFormFixed(trees, bundles);
  }

  lemma FreshBundleAt(trees: Trees, bank: Bank, scan: seq<ScannedAccount>, i: nat)
    requires TotalsFit(bank, scan) && i < |Voters(scan)|
    ensures i < |SortedSet(Voters(scan))| == |BundlesOf(trees, bank, scan)|
    ensures var b := BundlesOf(trees, bank, scan)[i];
            && VoteKey(b) == SortedSet(Voters(scan))[i]
            && b.meta.activeStake == TotalStake(LeavesOf(bank, scan, VoteKey(b)))
            && Derive(trees, b) == b && Derivable(b)
  {
    hide Voters, SortedSet, BundleFor, LeavesOf, Derive;
    var order := SortedSet(Voters(scan));
    SortedSetEnumerates(Voters(scan));
    assert order[i] in Voters(scan);
    var raw := Map(BundleFor(trees, bank, scan), order);
    assert BundlesOf(trees, bank, scan)[i] == WithProof(trees, raw, i);
    FreshBundle(trees, bank, scan, order[i], WithProof(trees, raw, i).proof);
  }

  lemma FreshBundle(trees: Trees, bank: Bank, scan: seq<ScannedAccount>, voter: Pubkey, proof: Option<seq<Bytes32>>)
    requires voter in Voters(scan) && TotalStake(LeavesOf(bank, scan, voter)) <= U64_MAX
    ensures var b := BundleFor(trees, bank, scan)(voter).(proof := proof);
            && VoteKey(b) == voter && b.meta.activeStake == TotalStake(LeavesOf(bank, scan, voter))
            && Derive(trees, b) == b && Derivable(b)
  {
    hide LeavesOf, TotalStake, Derive;
    var raw := Bundle(MetaFor(bank, voter), LeavesOf(bank, scan, voter), None);
    VoterHasLeaves(bank, scan, voter);
    DerivedFresh(trees, raw);
    DeriveIdempotent(trees, raw);
    DeriveIgnoresProof(trees, Derive(trees, raw), proof);
    DerivableIgnoresProof(Derive(trees, raw), proof);
  }

  lemma VoterHasLeaves(bank: Bank, scan: seq<ScannedAccount>, voter: Pubkey)
    requires voter in Voters(scan)
    ensures LeavesOf(bank, scan, voter) != []
  {
    hide DelegationsTo, Voters;
    DelegationsToEmpty(scan, voter);
  }

  /** What deriving gives a bundle, and that it can be derived again. */
  lemma DerivedFresh(trees: Trees, b: Bundle)
    requires Derivable(b)
    ensures var d := Derive(trees, b);
            VoteKey(d) == VoteKey(b) && d.meta.activeStake == TotalStake(b.stakes) && Derivable(d)
  {
    hide TotalStake, SortByKey;
    SortPermutes(StakeKey, b.stakes);
    TotalPermutes(SortByKey(StakeKey, b.stakes), b.stakes);
  }

  lemma DerivableIgnoresProof(b: Bundle, proof: Option<seq<Bytes32>>)
    requires Derivable(b)
    ensures Derivable(b.(proof := proof))
  {
    hide TotalStake;
  }

  // ----- conservation of stake

  /** The stake in effect, if the account holds any. */
  function CountedStake(a: ScannedAccount): nat { if a.state.Some? then a.state.value.activeStake else 0 }

  /** What one account adds to the total of `voter`. */
  function Share(a: ScannedAccount, voter: Pubkey): nat { if DelegatesTo(a, voter) then CountedStake(a) else 0 }

  function Target(a: ScannedAccount): Pubkey { if a.state.Some? then a.state.value.voter else Zero() }

  function VoterTotal(bank: Bank, scan: seq<ScannedAccount>): Pubkey -> nat
  {
    (voter: Pubkey) => TotalStake(LeavesOf(bank, scan, voter))
  }

  lemma VoterTotalStep(bank: Bank, init: seq<ScannedAccount>, a: ScannedAccount, voter: Pubkey)
    ensures VoterTotal(bank, init + [a])(voter) == VoterTotal(bank, init)(voter) + Share(a, voter)
  {
    var before, after := LeavesOf(bank, init, voter), LeavesOf(bank, init + [a], voter);
    if DelegatesTo(a, voter) {
      MapAppend(LeafOf(bank.poolVoters), DelegationsTo(init, voter), DelegationOf(a));
      SumMapAppend(StakeAmount, before, LeafOf(bank.poolVoters)(DelegationOf(a)));
    } else {
      assert DelegationsTo(init + [a], voter) == DelegationsTo(init, voter);
    }
  }

  lemma VoterTotalEmpty(bank: Bank)
    ensures forall v :: VoterTotal(bank, [])(v) == 0
  {
  }

  lemma {:induction false} VoterTotalsSum(bank: Bank, scan: seq<ScannedAccount>, order: seq<Pubkey>)
    requires DistinctKeys(Identity, order) && forall v :: v in Voters(scan) ==> v in order
    ensures Sum(Map(VoterTotal(bank, scan), order)) == Sum(Map(CountedStake, scan))
  {
    hide VoterTotal;
    if scan == [] {
      VoterTotalEmpty(bank);
      ZeroSum(VoterTotal(bank, []), order);
    } else {
      var n := |scan| - 1;
      var init, a := scan[..n], scan[n];
      assert scan == init + [a];
      VoterTotalsSum(bank, init, order);
      forall v
        ensures VoterTotal(bank, scan)(v) == VoterTotal(bank, init)(v) + if v == Target(a) then CountedStake(a) else 0
      {
        VoterTotalStep(bank, init, a, v);
      }
      SumRaise(VoterTotal(bank, init), VoterTotal(bank, scan), order, Target(a), CountedStake(a));
      SumMapAppend(CountedStake, init, a);
    }
  }

  /** The meta leaves account for exactly the stake of the scan: nothing is
      lost, counted twice or invented. */
  lemma StakeConserved(trees: Trees, bank: Bank, scan: seq<ScannedAccount>)
    requires TotalsFit(bank, scan)
    ensures Total(BundlesOf(trees, bank, scan)) == Sum(Map(CountedStake, scan))
  {
    hide Voters, SortedSet, BundlesOf, LeavesOf, Derive, TotalStake;
    var order, bundles := SortedSet(Voters(scan)), BundlesOf(trees, bank, scan);
    SortedSetEnumerates(Voters(scan));
    AsManyAsVoters(trees, bank, scan);
    forall i | 0 <= i < |bundles| ensures Map(BundleStake, bundles)[i] == Map(VoterTotal(bank, scan), order)[i] {
      FreshBundleAt(trees, bank, scan, i);
      assert Map(BundleStake, bundles)[i] == BundleStake(bundles[i]);
      assert Map(VoterTotal(bank, scan), order)[i] == VoterTotal(bank, scan)(order[i]);
    }
    assert Map(BundleStake, bundles) == Map(VoterTotal(bank, scan), order);
    VoterTotalsSum(bank, scan, order);
  }

  lemma AsManyAsVoters(trees: Trees, bank: Bank, scan: seq<ScannedAccount>)
    requires TotalsFit(bank, scan)
    ensures |BundlesOf(trees, bank, scan)| == |Voters(scan)|
  {
    hide Voters, BundlesOf, TotalsFit, SortedSet;
    if |Voters(scan)| > 0 {
      SortedSetEnumerates(Voters(scan));
      FreshBundleAt(trees, bank, scan, 0);
    } else {
      NoBundles(trees, bank, scan);
    }
  }

  lemma NoBundles(trees: Trees, bank: Bank, scan: seq<ScannedAccount>)
    requires |Voters(scan)| == 0
    ensures BundlesOf(trees, bank, scan) == []
  {
    assert Voters(scan) == {};
  }
}
