/** What the verifier service checks of an uploaded snapshot, and the rows that a
    snapshot stands for. */
module Verifier {
  import opened Bytes
  import opened Hashing
  import opened Sorting
  import opened Snapshot
  import opened Tables

  /** Text received from a client: the base58 form of some 32 bytes, or not. */
  datatype Text = Base58(of: Bytes32) | OtherText(text: string)

  /** An upload.  `signatureValid` is the outcome of the Ed25519 check over slot,
      network, root and hash; `file` is the decoded snapshot with the hash of its
      bytes, if it decodes; `databaseUp` says whether the database lets the
      transaction through. */
  datatype Request = Request(slot: u64, network: string, merkleRoot: Text, snapshotHash: Text,
                             signatureValid: bool, file: Option<(SnapshotData, Bytes32)>, databaseUp: bool)

  datatype Status = Success | BadRequest | Unauthorized | Internal

  datatype VoteRow = VoteRow(votingWallet: Pubkey, stakeRoot: Bytes32, activeStake: u64, proof: seq<Bytes32>)

  datatype StakeRow = StakeRow(voteAccount: Pubkey, votingWallet: Pubkey, activeStake: u64, proof: seq<Bytes32>)

  datatype MetaRow = MetaRow(merkleRoot: Text, snapshotHash: Text, totalActiveStake: nat)

  // ----- what a snapshot must satisfy

  predicate SupportedNetwork(network: string)
  {
    network == "devnet" || network == "testnet" || network == "mainnet"
  }

  predicate StakeRootsMatch(trees: Trees, bundles: seq<Bundle>)
  {
    forall i :: 0 <= i < |bundles| ==>
      bundles[i].stakes != [] && bundles[i].meta.stakeRoot == trees.stakeRoot(bundles[i].stakes)
  }

  function StakesOf(b: Bundle): seq<StakeLeaf> { b.stakes }

  function AllStakes(bundles: seq<Bundle>): seq<StakeLeaf> { FlatMap(StakesOf, bundles) }

  /** No vote account twice, no stake account twice anywhere, and every bundle's
      stake is the sum of its leaves. */
  ghost predicate Coherent(bundles: seq<Bundle>)
  {
    && DistinctKeys(VoteKey, bundles)
    && DistinctKeys(StakeKey, AllStakes(bundles))
    && forall i :: 0 <= i < |bundles| ==> bundles[i].meta.activeStake == TotalStake(bundles[i].stakes)
  }

  predicate RootMatches(trees: Trees, data: SnapshotData)
  {
    data.bundles != [] && data.root == trees.metaRoot(Metas(data.bundles))
  }

  // ----- rows of a snapshot

  function VoteEntry(trees: Trees, bundles: seq<Bundle>, i: nat): Entry<VoteRow>
    requires i < |bundles|
  {
    var meta := bundles[i].meta;
    (meta.voteAccount,
     VoteRow(meta.votingWallet, meta.stakeRoot, meta.activeStake, trees.metaProof((Metas(bundles), i))))
  }

  function VoteEntries(trees: Trees, bundles: seq<Bundle>): (r: seq<Entry<VoteRow>>)
    ensures |r| == |bundles|
  {
    seq(|bundles|, i requires 0 <= i < |bundles| => VoteEntry(trees, bundles, i))
  }

  function StakeEntry(trees: Trees, b: Bundle, j: nat): Entry<StakeRow>
    requires j < |b.stakes|
  {
    var leaf := b.stakes[j];
    (leaf.stakeAccount,
     StakeRow(b.meta.voteAccount, leaf.votingWallet, leaf.activeStake, trees.stakeProof((b.stakes, j))))
  }

  function BundleStakeEntries(trees: Trees, b: Bundle): (r: seq<Entry<StakeRow>>)
    ensures |r| == |b.stakes|
  {
    seq(|b.stakes|, j requires 0 <= j < |b.stakes| => StakeEntry(trees, b, j))
  }

  function StakeEntriesOf(trees: Trees): Bundle -> seq<Entry<StakeRow>>
  {
    (b: Bundle) => BundleStakeEntries(trees, b)
  }

  function StakeEntries(trees: Trees, bundles: seq<Bundle>): seq<Entry<StakeRow>>
  {
    FlatMap(StakeEntriesOf(trees), bundles)
  }

  // ----- validation

  method ValidateStakeMerkleRoots(h: Hasher, bundles: seq<Bundle>) returns (ok: bool)
    ensures ok <==> StakeRootsMatch(TreesOf(h), bundles)
  {
    hide TreesOf;
    for i := 0 to |bundles|
      invariant StakeRootsMatch(TreesOf(h), bundles[..i])
    {
      var derived := StakeRoot(h, bundles[i].stakes);
      if derived.None? || derived.value != bundles[i].meta.stakeRoot {
        return false;
      }
    }
    return true;
  }

  /** Inner loop of `validate_snapshot`: the leaves of one bundle against the
      accounts seen so far, with a checked running sum. */
  method ValidateLeaves(stakes: seq<StakeLeaf>, seen0: set<Pubkey>) returns (sum: Option<nat>, seen: set<Pubkey>)
    ensures sum.Some? <==> && DistinctKeys(StakeKey, stakes)
                           && (forall j :: 0 <= j < |stakes| ==> StakeKey(stakes[j]) !in seen0)
                           && TotalStake(stakes) <= U64_MAX
    ensures sum.Some? ==> sum.value == TotalStake(stakes)
    ensures sum.Some? ==> seen == seen0 + set j | 0 <= j < |stakes| :: StakeKey(stakes[j])
  {
    hide TotalStake;
    seen := seen0;
    var total := 0;
    EmptyTotal();
    for j := 0 to |stakes|
      invariant DistinctKeys(StakeKey, stakes[..j])
      invariant forall i :: 0 <= i < j ==> StakeKey(stakes[i]) !in seen0
      invariant seen == seen0 + set i | 0 <= i < j :: StakeKey(stakes[i])
      invariant total == TotalStake(stakes[..j]) <= U64_MAX
    {
      var leaf := stakes[j];
      if leaf.stakeAccount in seen {
        assert StakeKey(stakes[j]) == leaf.stakeAccount;
        return None, seen;
      }
      seen := seen + {leaf.stakeAccount};
      assert stakes[..j + 1] == stakes[..j] + [leaf];
      TotalAppend(stakes[..j], leaf);
      if total + leaf.activeStake > U64_MAX {
        PartialTotal(stakes, j + 1);
        return None, seen;
      }
      total := total + leaf.activeStake;
    }
    assert stakes[..|stakes|] == stakes;
    return Some(total), seen;
  }

  lemma EmptyTotal()
    ensures TotalStake([]) == 0
  {
  }

  lemma TotalAppend(stakes: seq<StakeLeaf>, leaf: StakeLeaf)
    ensures TotalStake(stakes + [leaf]) == TotalStake(stakes) + leaf.activeStake
  {
    SumMapAppend(StakeAmount, stakes, leaf);
  }

  lemma {:induction false} PartialTotal(stakes: seq<StakeLeaf>, j: nat)
    requires j <= |stakes|
    ensures TotalStake(stakes[..j]) <= TotalStake(stakes)
    decreases |stakes| - j
  {
    if j < |stakes| {
      PartialTotal(stakes, j + 1);
      assert stakes[..j + 1] == stakes[..j] + [stakes[j]];
      TotalAppend(stakes[..j], stakes[j]);
    } else {
      assert stakes[..j] == stakes;
    }
  }

  ghost function KeysOf(stakes: seq<StakeLeaf>): set<Pubkey>
  {
    set j | 0 <= j < |stakes| :: StakeKey(stakes[j])
  }

  /** What one more bundle must satisfy for the list to stay coherent. */
  ghost predicate Fits(init: seq<Bundle>, b: Bundle)
  {
    && (forall i :: 0 <= i < |init| ==> VoteKey(init[i]) != VoteKey(b))
    && DistinctKeys(StakeKey, b.stakes)
    && (forall j :: 0 <= j < |b.stakes| ==> StakeKey(b.stakes[j]) !in KeysOf(AllStakes(init)))
    && b.meta.activeStake == TotalStake(b.stakes)
  }

  lemma CoherentStep(init: seq<Bundle>, b: Bundle)
    ensures Coherent(init + [b]) <==> Coherent(init) && Fits(init, b)
    ensures KeysOf(AllStakes(init + [b])) == KeysOf(AllStakes(init)) + KeysOf(b.stakes)
  {
    hide TotalStake, AllStakes, DistinctKeys;
    AllStakesStep(init, b);
    KeysConcat(AllStakes(init), b.stakes);
    DistinctVotes(init, b);
    DistinctStakes(AllStakes(init), b.stakes);
    SumsStep(init, b);
  }

  lemma AllStakesStep(init: seq<Bundle>, b: Bundle)
    ensures AllStakes(init + [b]) == AllStakes(init) + b.stakes
  {
    FlatMapAppend(StakesOf, init, b);
  }

  lemma DistinctVotes(init: seq<Bundle>, b: Bundle)
    ensures DistinctKeys(VoteKey, init + [b])
            <==> DistinctKeys(VoteKey, init) && forall i :: 0 <= i < |init| ==> VoteKey(init[i]) != VoteKey(b)
  {
    DistinctConcat(VoteKey, init, [b]);
    assert [b][0] == b;
  }

  lemma DistinctStakes(seen: seq<StakeLeaf>, stakes: seq<StakeLeaf>)
    ensures DistinctKeys(StakeKey, seen + stakes)
            <==> && DistinctKeys(StakeKey, seen) && DistinctKeys(StakeKey, stakes)
                 && forall j :: 0 <= j < |stakes| ==> StakeKey(stakes[j]) !in KeysOf(seen)
  {
    DistinctConcat(StakeKey, seen, stakes);
  }

  lemma SumsStep(init: seq<Bundle>, b: Bundle)
    ensures (forall i :: 0 <= i < |init + [b]| ==>
               (init + [b])[i].meta.activeStake == TotalStake((init + [b])[i].stakes))
            <==> && (forall i :: 0 <= i < |init| ==> init[i].meta.activeStake == TotalStake(init[i].stakes))
                 && b.meta.activeStake == TotalStake(b.stakes)
  {
    hide TotalStake;
    var all := init + [b];
    assert forall i :: 0 <= i < |init| ==> all[i] == init[i];
    assert all[|init|] == b;
  }

  lemma KeysConcat(a: seq<StakeLeaf>, b: seq<StakeLeaf>)
    ensures KeysOf(a + b) == KeysOf(a) + KeysOf(b)
  {
    var c := a + b;
    forall k ensures k in KeysOf(c) <==> k in KeysOf(a) || k in KeysOf(b) {
      if k in KeysOf(a) {
        var i :| 0 <= i < |a| && StakeKey(a[i]) == k;
        assert StakeKey(c[i]) == k;
      }
      if k in KeysOf(b) {
        var i :| 0 <= i < |b| && StakeKey(b[i]) == k;
        assert StakeKey(c[|a| + i]) == k;
      }
    }
  }

  lemma {:induction false} CoherentPrefix(bundles: seq<Bundle>, i: nat)
    requires Coherent(bundles) && i <= |bundles|
    ensures Coherent(bundles[..i])
    decreases |bundles| - i
  {
    if i < |bundles| {
      CoherentPrefix(bundles, i + 1);
      CoherentStep(bundles[..i], bundles[i]);
      assert bundles[..i + 1] == bundles[..i] + [bundles[i]];
    } else {
      assert bundles[..i] == bundles;
    }
  }

  method ValidateSnapshot(bundles: seq<Bundle>) returns (ok: bool)
    ensures ok <==> Coherent(bundles)
  {
    hide Coherent, KeysOf, TotalStake;
    var voteAccs: set<Pubkey>, stakeAccs: set<Pubkey> := {}, {};
    NothingYet();
    for i := 0 to |bundles|
      invariant Coherent(bundles[..i])
      invariant voteAccs == set k | 0 <= k < i :: VoteKey(bundles[k])
      invariant stakeAccs == KeysOf(AllStakes(bundles[..i]))
    {
      var b := bundles[i];
      assert bundles[..i + 1] == bundles[..i] + [b];
      CoherentStep(bundles[..i], b);
      if b.meta.voteAccount in voteAccs {
        Rejects(bundles, i);
        return false;
      }
      voteAccs := voteAccs + {b.meta.voteAccount};
      var sum, seen := ValidateLeaves(b.stakes, stakeAccs);
      if sum.None? || sum.value != b.meta.activeStake {
        Rejects(bundles, i);
        return false;
      }
      SeenKeys(b.stakes);
      stakeAccs := seen;
    }
    assert bundles[..|bundles|] == bundles;
    return true;
  }

  lemma SeenKeys(stakes: seq<StakeLeaf>)
    ensures (set j | 0 <= j < |stakes| :: StakeKey(stakes[j])) == KeysOf(stakes)
  {
  }

  lemma NothingYet()
    ensures Coherent([]) && KeysOf(AllStakes([])) == {}
  {
  }

  /** A bundle that does not fit makes the whole list incoherent. */
  lemma Rejects(bundles: seq<Bundle>, i: nat)
    requires i < |bundles| && !Fits(bundles[..i], bundles[i])
    ensures !Coherent(bundles)
  {
    if Coherent(bundles) {
      CoherentPrefix(bundles, i + 1);
      assert bundles[..i + 1] == bundles[..i] + [bundles[i]];
      CoherentStep(bundles[..i], bundles[i]);
    }
  }
}
