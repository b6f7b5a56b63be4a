/** `remerklize` computes a canonical form, whatever the trees compute. */
module SnapshotLaws {
  import opened Bytes
  import opened Hashing
  import opened Sorting
  import opened Snapshot
  import opened MerkleProofs
  import MT = MerkleTree

  /** What a bundle says before anything is derived: who, and which stake
      leaves, in no particular order. */
  datatype Core = Core(votingWallet: Pubkey, voteAccount: Pubkey, stakes: multiset<StakeLeaf>)

  function CoreOf(b: Bundle): Core
  {
    Core(b.meta.votingWallet, b.meta.voteAccount, multiset(b.stakes))
  }

  /** Permutations of each other at both levels, derived fields ignored. */
  ghost predicate SamePopulation(a: seq<Bundle>, b: seq<Bundle>)
  {
    multiset(Map(CoreOf, a)) == multiset(Map(CoreOf, b))
  }

  /** Distinct vote accounts, and distinct stake accounts inside each bundle. */
  ghost predicate DistinctAccounts(bundles: seq<Bundle>)
  {
    && DistinctKeys(VoteKey, bundles)
    && forall i :: 0 <= i < |bundles| ==> DistinctKeys(StakeKey, bundles[i].stakes)
  }

  function Strip(b: Bundle): Bundle { b.(proof := None) }

  function StrippedDeriver(trees: Trees): Bundle -> Bundle { (b: Bundle) => Strip(Derive(trees, b)) }

  lemma DerivableByCore(a: Bundle, b: Bundle)
    requires CoreOf(a) == CoreOf(b)
    ensures Derivable(a) <==> Derivable(b)
  {
    assert |multiset(a.stakes)| == |multiset(b.stakes)|;
    TotalPermutes(a.stakes, b.stakes);
  }

  /** Bundles with the same core derive to the same bundle. */
  lemma DeriveByCore(trees: Trees, a: Bundle, b: Bundle)
    requires CoreOf(a) == CoreOf(b) && Derivable(a) && DistinctKeys(StakeKey, a.stakes)
    ensures Strip(Derive(trees, a)) == Strip(Derive(trees, b))
  {
    DerivableByCore(a, b);
    SortCanonical(StakeKey, a.stakes, b.stakes);
    TotalPermutes(a.stakes, b.stakes);
  }

  /** Stale proofs do not influence the result. */
  lemma WithProofsStrips(trees: Trees, bundles: seq<Bundle>)
    ensures WithProofs(trees, Map(Strip, bundles)) == WithProofs(trees, bundles)
  {
    var stripped := Map(Strip, bundles);
    forall i | 0 <= i < |bundles| ensures Metas(stripped)[i] == Metas(bundles)[i] {
      assert stripped[i] == Strip(bundles[i]);
      assert Metas(stripped)[i] == MetaOf(stripped[i]) && Metas(bundles)[i] == MetaOf(bundles[i]);
    }
    assert Metas(stripped) == Metas(bundles);
    var a, b := WithProofs(trees, stripped), WithProofs(trees, bundles);
    forall i | 0 <= i < |bundles| ensures a[i] == b[i] {
      assert a[i] == WithProof(trees, stripped, i) && b[i] == WithProof(trees, bundles, i);
      assert stripped[i] == Strip(bundles[i]);
    }
  }

  lemma RemerklizedStripped(trees: Trees, bundles: seq<Bundle>)
    ensures Remerklized(trees, bundles) == WithProofs(trees, SortByKey(VoteKey, Map(StrippedDeriver(trees), bundles)))
  {
    var derived := Map(Deriver(trees), bundles);
    assert Map(StrippedDeriver(trees), bundles) == Map(Strip, derived);
    SortMapCommutes(Strip, VoteKey, VoteKey, derived);
    WithProofsStrips(trees, SortByKey(VoteKey, derived));
  }

  /** Two snapshots that list the same population become identical. */
  lemma RemerklizeCanonical(trees: Trees, a: seq<Bundle>, b: seq<Bundle>)
    requires SamePopulation(a, b) && Remerklizable(a) && DistinctAccounts(a)
    ensures Remerklizable(b)
    ensures Remerklized(trees, a) == Remerklized(trees, b)
  {
    RemerklizableByCore(b, a);
    forall i, j | 0 <= i < |a| && 0 <= j < |b| && CoreOf(a[i]) == CoreOf(b[j])
      ensures StrippedDeriver(trees)(a[i]) == StrippedDeriver(trees)(b[j])
    {
      DeriveByCore(trees, a[i], b[j]);
    }
    MapFactors(CoreOf, StrippedDeriver(trees), a, b);
    assert DistinctKeys(VoteKey, Map(StrippedDeriver(trees), a));
    SortCanonical(VoteKey, Map(StrippedDeriver(trees), a), Map(StrippedDeriver(trees), b));
    RemerklizedStripped(trees, a);
    RemerklizedStripped(trees, b);
  }

  lemma RemerklizableByCore(a: seq<Bundle>, b: seq<Bundle>)
    requires SamePopulation(a, b) && Remerklizable(b)
    ensures Remerklizable(a)
  {
    assert |multiset(Map(CoreOf, a))| == |multiset(Map(CoreOf, b))|;
    forall i | 0 <= i < |a| ensures Derivable(a[i]) {
      var j := Occurrence(CoreOf, b, Map(CoreOf, a), i);
      DerivableByCore(a[i], b[j]);
    }
  }

  // ----- idempotence

  lemma DeriveIdempotent(trees: Trees, b: Bundle)
    ensures Derive(trees, Derive(trees, b)) == Derive(trees, b)
  {
    if Derivable(b) {
      SortAscending(StakeKey, b.stakes);
      SortFixed(StakeKey, SortByKey(StakeKey, b.stakes));
      SortPermutes(StakeKey, b.stakes);
      TotalPermutes(SortByKey(StakeKey, b.stakes), b.stakes);
    }
  }

  /** A list that is already derived, in order and proved is a fixed point. */
  ghost predicate InNormalForm(trees: Trees, bundles: seq<Bundle>)
  {
    && Ascending(VoteKey, bundles)
    && (forall i :: 0 <= i < |bundles| ==> Derive(trees, bundles[i]) == bundles[i])
    && WithProofs(trees, bundles) == bundles
  }

  lemma NormalFormFixed(trees: Trees, bundles: seq<Bundle>)
    requires InNormalForm(trees, bundles)
    ensures Remerklized(trees, bundles) == bundles
  {
    assert Map(Deriver(trees), bundles) == bundles;
    SortFixed(VoteKey, bundles);
  }

  lemma DeriveIgnoresProof(trees: Trees, b: Bundle, proof: Option<seq<Bytes32>>)
    ensures Derive(trees, b.(proof := proof)) == Derive(trees, b).(proof := proof)
  {
  }

  lemma WithProofsTwice(trees: Trees, bundles: seq<Bundle>)
    ensures WithProofs(trees, WithProofs(trees, bundles)) == WithProofs(trees, bundles)
  {
    var a := WithProofs(trees, bundles);
    WithProofsMetas(trees, bundles);
    forall i | 0 <= i < |a| ensures WithProofs(trees, a)[i] == a[i] {
      assert WithProofs(trees, a)[i] == WithProof(trees, a, i);
      assert a[i] == WithProof(trees, bundles, i);
    }
  }

  /** The result of `remerklize` is in normal form. */
  lemma RemerklizedNormal(trees: Trees, bundles: seq<Bundle>)
    ensures InNormalForm(trees, Remerklized(trees, bundles))
  {
    var derived := Map(Deriver(trees), bundles);
    var sorted := SortByKey(VoteKey, derived);
    SortAscending(VoteKey, derived);
    SortPermutes(VoteKey, derived);
    WithProofsTwice(trees, sorted);
    var r := WithProofs(trees, sorted);
    forall i | 0 <= i < |r| ensures VoteKey(r[i]) == VoteKey(sorted[i]) && Derive(trees, r[i]) == r[i] {
      assert r[i] == WithProof(trees, sorted, i);
      assert sorted[i] in multiset(derived);
      var j :| 0 <= j < |derived| && derived[j] == sorted[i];
      DeriveIdempotent(trees, bundles[j]);
      DeriveIgnoresProof(trees, sorted[i], r[i].proof);
    }
  }

  /** Bundles come in the numeric order of their vote accounts, and leaves in that
      of their stake accounts. */
  lemma RemerklizedInOrder(trees: Trees, bundles: seq<Bundle>)
    requires Remerklizable(bundles)
    ensures var r := Remerklized(trees, bundles);
            && NumericallyAscending(VoteKey, r)
            && forall i :: 0 <= i < |r| ==> NumericallyAscending(StakeKey, r[i].stakes)
  {
    hide Derive, Derivable, Remerklized, Ascending, NumericallyAscending;
    var r := Remerklized(trees, bundles);
    RemerklizedNormal(trees, bundles);
    RemerklizedDerivable(trees, bundles);
    AscendingIsNumeric(VoteKey, r);
    forall i | 0 <= i < |r| ensures NumericallyAscending(StakeKey, r[i].stakes) {
      DerivedAscending(trees, r[i]);
      AscendingIsNumeric(StakeKey, r[i].stakes);
    }
  }

  lemma DerivedAscending(trees: Trees, b: Bundle)
    requires Derivable(b)
    ensures Ascending(StakeKey, Derive(trees, b).stakes)
  {
    hide TotalStake;
    SortAscending(StakeKey, b.stakes);
  }

  lemma CoreDerived(trees: Trees, b: Bundle)
    ensures CoreOf(Derive(trees, b)) == CoreOf(b)
    ensures Derivable(b) ==> Derivable(Derive(trees, b))
  {
    hide TotalStake;
    SortPermutes(StakeKey, b.stakes);
    TotalPermutes(SortByKey(StakeKey, b.stakes), b.stakes);
  }

  /** Wallets, vote accounts and leaves are neither lost, made up nor mixed up. */
  lemma RemerklizedKeepsPopulation(trees: Trees, bundles: seq<Bundle>)
    ensures SamePopulation(Remerklized(trees, bundles), bundles)
  {
    hide Derive, CoreOf;
    var derived := Map(Deriver(trees), bundles);
    var sorted := SortByKey(VoteKey, derived);
    SortPermutes(VoteKey, derived);
    MapPermutes(CoreOf, sorted, derived);
    forall i | 0 <= i < |bundles| ensures Map(CoreOf, derived)[i] == Map(CoreOf, bundles)[i] {
      CoreDerived(trees, bundles[i]);
    }
    assert Map(CoreOf, derived) == Map(CoreOf, bundles);
    CoresWithProofs(trees, sorted);
  }

  lemma CoresWithProofs(trees: Trees, bundles: seq<Bundle>)
    ensures Map(CoreOf, WithProofs(trees, bundles)) == Map(CoreOf, bundles)
  {
    forall i | 0 <= i < |bundles| ensures CoreOf(WithProofs(trees, bundles)[i]) == CoreOf(bundles[i]) {
      assert WithProofs(trees, bundles)[i] == WithProof(trees, bundles, i);
    }
  }

  lemma RemerklizedDerivable(trees: Trees, bundles: seq<Bundle>)
    requires Remerklizable(bundles)
    ensures forall i :: 0 <= i < |Remerklized(trees, bundles)| ==> Derivable(Remerklized(trees, bundles)[i])
  {
    hide Derive;
    RemerklizedKeepsPopulation(trees, bundles);
    RemerklizableByCore(Remerklized(trees, bundles), bundles);
  }

  /** The bytes hashed for a stake leaf: wallet, account, stake in eight bytes. */
  lemma StakeContentLayout(leaf: StakeLeaf)
    ensures var c := StakeContent(leaf);
            && |c| == 72 && c[..32] == leaf.votingWallet && c[32..64] == leaf.stakeAccount
            && forall i :: 0 <= i < 8 ==> c[64 + i] == leaf.activeStake / Radix(i) % 0x100
  {
    hide LittleEndian, Radix;
    var digits := LittleEndian(leaf.activeStake, 8);
    assert StakeContent(leaf)[64..] == digits;
    forall i | 0 <= i < 8 ensures StakeContent(leaf)[64 + i] == leaf.activeStake / Radix(i) % 0x100 {
      LittleEndianDigit(leaf.activeStake, 8, i);
      assert StakeContent(leaf)[64 + i] == digits[i];
    }
  }

  /** The bytes hashed for a meta leaf: wallet, account, stake root, stake. */
  lemma MetaContentLayout(leaf: MetaLeaf)
    ensures var c := MetaContent(leaf);
            && |c| == 104 && c[..32] == leaf.votingWallet && c[32..64] == leaf.voteAccount
            && c[64..96] == leaf.stakeRoot
            && forall i :: 0 <= i < 8 ==> c[96 + i] == leaf.activeStake / Radix(i) % 0x100
  {
    hide LittleEndian, Radix;
    var digits := LittleEndian(leaf.activeStake, 8);
    assert MetaContent(leaf)[96..] == digits;
    forall i | 0 <= i < 8 ensures MetaContent(leaf)[96 + i] == leaf.activeStake / Radix(i) % 0x100 {
      LittleEndianDigit(leaf.activeStake, 8, i);
      assert MetaContent(leaf)[96 + i] == digits[i];
    }
  }

  /** Running `remerklize` again changes nothing. */
  lemma RemerklizeIdempotent(trees: Trees, bundles: seq<Bundle>)
    ensures Remerklized(trees, Remerklized(trees, bundles)) == Remerklized(trees, bundles)
  {
    RemerklizedNormal(trees, bundles);
    NormalFormFixed(trees, Remerklized(trees, bundles));
  }

  /** The proof attached to each bundle verifies its meta leaf against the root. */
  lemma AttachedProofsVerify(h: Hasher, bundles: seq<Bundle>)
    ensures var r := Remerklized(TreesOf(h), bundles);
            forall i :: 0 <= i < |r| ==>
              r[i].proof.Some?
              && Verifies(h, h(MetaContent(r[i].meta)), r[i].proof.value, TreesOf(h).metaRoot(Metas(r)))
  {
    hide Verifies, MetaContent, TreesOf, SortByKey, Deriver;
    var sorted := SortByKey(VoteKey, Map(Deriver(TreesOf(h)), bundles));
    var r := WithProofs(TreesOf(h), sorted);
    WithProofsMetas(TreesOf(h), sorted);
    forall i | 0 <= i < |r|
      ensures r[i].proof.Some?
              && Verifies(h, h(MetaContent(r[i].meta)), r[i].proof.value, TreesOf(h).metaRoot(Metas(r)))
    {
      assert r[i] == WithProof(TreesOf(h), sorted, i);
      assert Metas(sorted)[i] == MetaOf(sorted[i]);
      MetaProofVerifies(h, Metas(sorted), i);
    }
  }

  /** A proof taken from the trees verifies against the root taken from them. */
  lemma MetaProofVerifies(h: Hasher, metas: seq<MetaLeaf>, i: nat)
    requires i < |metas|
    ensures Verifies(h, h(MetaContent(metas[i])), TreesOf(h).metaProof((metas, i)), TreesOf(h).metaRoot(metas))
  {
    hide Verifies, ProofOf, Root, MetaContent;
    Completeness(h, MetaItems(h, metas), i);
    assert MetaItems(h, metas)[i] == MetaHasher(h)(metas[i]);
  }

  /** A bundle's own proof for one of its stake leaves, by rebuilding its tree. */
  method GetStakeMerkleProof(h: Hasher, b: Bundle, index: nat) returns (proof: seq<Bytes32>)
    requires index < |b.stakes|
    ensures proof == TreesOf(h).stakeProof((b.stakes, index))
    ensures Verifies(h, h(StakeContent(b.stakes[index])), proof, TreesOf(h).stakeRoot(b.stakes))
  {
    hide Verifies, Root, ProofOf, StakeContent;
    var items := StakeItems(h, b.stakes);
    var tree := MT.New(h, items, true);
    proof := MT.GetProof(tree, index, h, true, items);
    Completeness(h, items, index);
    assert items[index] == StakeHasher(h)(b.stakes[index]);
  }
}
