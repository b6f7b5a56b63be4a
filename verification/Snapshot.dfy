/** The two-level stake snapshot: stake leaves under a meta leaf per vote
    account, and `remerklize`, which re-derives everything from the stake leaves. */
module Snapshot {
  import opened Bytes
  import opened Hashing
  import opened Sorting
  import MT = MerkleTree

  type Pubkey = Bytes32

  datatype StakeLeaf = StakeLeaf(votingWallet: Pubkey, stakeAccount: Pubkey, activeStake: u64)

  datatype MetaLeaf = MetaLeaf(votingWallet: Pubkey, voteAccount: Pubkey, stakeRoot: Bytes32, activeStake: u64)

  datatype Bundle = Bundle(meta: MetaLeaf, stakes: seq<StakeLeaf>, proof: Option<seq<Bytes32>>)

  datatype SnapshotData = SnapshotData(root: Bytes32, bundles: seq<Bundle>, slot: u64)

  // ----- leaf hashes

  function StakeContent(leaf: StakeLeaf): Bytes
  {
    leaf.votingWallet + leaf.stakeAccount + LittleEndian(leaf.activeStake, 8)
  }

  function MetaContent(leaf: MetaLeaf): Bytes
  {
    leaf.votingWallet + leaf.voteAccount + leaf.stakeRoot + LittleEndian(leaf.activeStake, 8)
  }

  function StakeHasher(h: Hasher): StakeLeaf -> Bytes { (leaf: StakeLeaf) => h(StakeContent(leaf)) }

  function MetaHasher(h: Hasher): MetaLeaf -> Bytes { (leaf: MetaLeaf) => h(MetaContent(leaf)) }

  /** Items of the stake tree of a bundle. */
  function StakeItems(h: Hasher, stakes: seq<StakeLeaf>): seq<Bytes> { Map(StakeHasher(h), stakes) }

  /** Items of the meta tree. */
  function MetaItems(h: Hasher, metas: seq<MetaLeaf>): seq<Bytes> { Map(MetaHasher(h), metas) }

  // ----- what the snapshot code takes from its trees

  function RootOr(root: Option<Bytes32>): Bytes32 { if root.Some? then root.value else Zero() }

  /** Roots and proofs of the stake trees and of the meta tree, as functions of
      the leaves alone. */
  datatype Trees = Trees(stakeRoot: seq<StakeLeaf> -> Bytes32,
                         stakeProof: ((seq<StakeLeaf>, nat)) -> seq<Bytes32>,
                         metaRoot: seq<MetaLeaf> -> Bytes32,
                         metaProof: ((seq<MetaLeaf>, nat)) -> seq<Bytes32>)

  function TreesOf(h: Hasher): Trees
  {
    Trees((stakes: seq<StakeLeaf>) => RootOr(Root(h, true, StakeItems(h, stakes))),
          (at: (seq<StakeLeaf>, nat)) =>
            if at.1 < |at.0| then ProofOf(h, true, StakeItems(h, at.0), at.1) else [],
          (metas: seq<MetaLeaf>) => RootOr(Root(h, true, MetaItems(h, metas))),
          (at: (seq<MetaLeaf>, nat)) =>
            if at.1 < |at.0| then ProofOf(h, true, MetaItems(h, at.0), at.1) else [])
  }

  function MetaOf(b: Bundle): MetaLeaf { b.meta }

  function Metas(bundles: seq<Bundle>): seq<MetaLeaf> { Map(MetaOf, bundles) }

  function StakeKey(leaf: StakeLeaf): Bytes32 { leaf.stakeAccount }

  function VoteKey(b: Bundle): Bytes32 { b.meta.voteAccount }

  function StakeAmount(leaf: StakeLeaf): nat { leaf.activeStake }

  function TotalStake(stakes: seq<StakeLeaf>): nat { Sum(Map(StakeAmount, stakes)) }

  function BundleStake(b: Bundle): nat { b.meta.activeStake }

  function Total(bundles: seq<Bundle>): nat { Sum(Map(BundleStake, bundles)) }

  // ----- remerklize

  /** Whether a bundle's derived fields exist: it has leaves and their sum fits. */
  predicate Derivable(b: Bundle)
  {
    b.stakes != [] && TotalStake(b.stakes) <= U64_MAX
  }

  /** A bundle with its leaves in key order and its derived fields recomputed. */
  function Derive(trees: Trees, b: Bundle): Bundle
  {
    if Derivable(b) then
      var stakes := SortByKey(StakeKey, b.stakes);
      b.(stakes := stakes,
         meta := b.meta.(stakeRoot := trees.stakeRoot(stakes), activeStake := TotalStake(b.stakes)))
    else b
  }

  /** A bundle sorted and re-rooted, its sum still the former one. */
  function Rerooted(trees: Trees, b: Bundle): Bundle
  {
    var stakes := SortByKey(StakeKey, b.stakes);
    b.(stakes := stakes, meta := b.meta.(stakeRoot := trees.stakeRoot(stakes)))
  }

  function Deriver(trees: Trees): Bundle -> Bundle { (b: Bundle) => Derive(trees, b) }

  function WithProof(trees: Trees, bundles: seq<Bundle>, i: nat): Bundle
    requires i < |bundles|
  {
    bundles[i].(proof := Some(trees.metaProof((Metas(bundles), i))))
  }

  /** Every bundle given its own proof in the meta tree over all of them. */
  function WithProofs(trees: Trees, bundles: seq<Bundle>): (r: seq<Bundle>)
    ensures |r| == |bundles|
  {
    seq(|bundles|, i requires 0 <= i < |bundles| => WithProof(trees, bundles, i))
  }

  /** The bundles `remerklize` arrives at. */
  function Remerklized(trees: Trees, bundles: seq<Bundle>): seq<Bundle>
  {
    WithProofs(trees, SortByKey(VoteKey, Map(Deriver(trees), bundles)))
  }

  predicate Remerklizable(bundles: seq<Bundle>)
  {
    bundles != [] && forall i :: 0 <= i < |bundles| ==> Derivable(bundles[i])
  }

  datatype Outcome = Done | EmptyBundle(at: nat) | SumOverflow(at: nat) | NoBundles

  class MetaMerkleSnapshot {
    var root: Bytes32
    var bundles: seq<Bundle>
    var slot: u64

    constructor (data: SnapshotData)
      ensures root == data.root && bundles == data.bundles && slot == data.slot
    {
      root, bundles, slot := data.root, data.bundles, data.slot;
    }

    /** First loop: each bundle's leaves, stake root and sum.  It stops at the
        first bundle without leaves (an error) or whose sum overflows (a panic). */
    method DeriveBundles(h: Hasher) returns (r: Outcome)
      modifies this`bundles
      ensures r.Done? || r.EmptyBundle? || r.SumOverflow?
      ensures r.Done? <==> forall i :: 0 <= i < |old(bundles)| ==> Derivable(old(bundles)[i])
      ensures r.Done? ==> bundles == Map(Deriver(TreesOf(h)), old(bundles))
      ensures !r.Done? ==> && r.at < |old(bundles)| && !Derivable(old(bundles)[r.at])
                           && (forall j :: 0 <= j < r.at ==> Derivable(old(bundles)[j]))
                           && (r.EmptyBundle? <==> old(bundles)[r.at].stakes == [])
      ensures r.EmptyBundle? ==> bundles == Map(Deriver(TreesOf(h)), old(bundles)[..r.at]) + old(bundles)[r.at..]
      ensures r.SumOverflow? ==> bundles == Map(Deriver(TreesOf(h)), old(bundles)[..r.at])
                                            + [Rerooted(TreesOf(h), old(bundles)[r.at])] + old(bundles)[r.at + 1..]
    {
      hide TreesOf, Derive, Derivable, Rerooted, Half;
      ghost var before, trees := bundles, TreesOf(h);
      HalfBegun(trees, before);
      for i := 0 to |bundles|
        invariant |bundles| == |before| && bundles == Half(trees, before, i)
        invariant forall j :: 0 <= j < i ==> Derivable(before[j])
      {
        HalfNext(trees, before, i);
        var next, outcome := DeriveBundle(h, bundles[i]);
        bundles := bundles[i := next];
        if outcome.Empty? {
          HalfIs(trees, before, i);
          return EmptyBundle(i);
        }
        if outcome.Overflow? {
          return SumOverflow(i);
        }
      }
      HalfDone(trees, before);
      return Done;
    }

    /** Last loop: every bundle's proof in the meta tree. */
    method AttachProofs(h: Hasher, metaTree: MT.MerkleTree<Bytes32>)
      requires MT.Represents(metaTree, h, true, MetaItems(h, Metas(bundles)))
      modifies this`bundles
      ensures bundles == WithProofs(TreesOf(h), old(bundles))
    {
      hide TreesOf, MT.Represents, MetaItems;
      ghost var before := bundles;
      for i := 0 to |bundles|
        invariant |bundles| == |before|
        invariant bundles == WithProofs(TreesOf(h), before)[..i] + before[i..]
      {
        var proof := MetaProof(h, metaTree, i, Metas(before));
        ProofNext(TreesOf(h), before, i);
        bundles := bundles[i := bundles[i].(proof := Some(proof))];
      }
    }

    method Remerklize(h: Hasher) returns (r: Outcome)
      modifies this`bundles, this`root
      ensures r.Done? <==> Remerklizable(old(bundles))
      ensures r.Done? ==> bundles == Remerklized(TreesOf(h), old(bundles))
                          && root == TreesOf(h).metaRoot(Metas(bundles))
      ensures r.NoBundles? <==> old(bundles) == []
      ensures r.EmptyBundle? || r.SumOverflow? ==>
                r.at < |old(bundles)| && !Derivable(old(bundles)[r.at])
                && (r.EmptyBundle? <==> old(bundles)[r.at].stakes == [])
      ensures !r.Done? ==> root == old(root)
    {
      r := DeriveBundles(h);
      if !r.Done? {
        return;
      }
      bundles := SortByKey(VoteKey, bundles);
      SortPermutes(VoteKey, Map(Deriver(TreesOf(h)), old(bundles)));
      var metaTree, metaRoot := MetaTree(h, Metas(bundles));
      if metaRoot.None? {
        return NoBundles;
      }
      root := metaRoot.value;
      WithProofsMetas(TreesOf(h), bundles);
      AttachProofs(h, metaTree);
    }
  }

  // ----- the calls into the tree

  method StakeRoot(h: Hasher, stakes: seq<StakeLeaf>) returns (root: Option<Bytes32>)
    ensures root.None? <==> stakes == []
    ensures root.Some? ==> root.value == TreesOf(h).stakeRoot(stakes)
  {
    var tree := MT.New(h, StakeItems(h, stakes), true);
    MT.GetRootIsRoot(tree, h, true, StakeItems(h, stakes));
    root := MT.GetRoot(tree);
  }

  method MetaTree(h: Hasher, metas: seq<MetaLeaf>) returns (tree: MT.MerkleTree<Bytes32>, root: Option<Bytes32>)
    ensures MT.Represents(tree, h, true, MetaItems(h, metas))
    ensures root.None? <==> metas == []
    ensures root.Some? ==> root.value == TreesOf(h).metaRoot(metas)
  {
    tree := MT.New(h, MetaItems(h, metas), true);
    MT.GetRootIsRoot(tree, h, true, MetaItems(h, metas));
    root := MT.GetRoot(tree);
  }

  method MetaProof(h: Hasher, tree: MT.MerkleTree<Bytes32>, i: nat, ghost metas: seq<MetaLeaf>)
    returns (proof: seq<Bytes32>)
    requires MT.Represents(tree, h, true, MetaItems(h, metas)) && i < |metas|
    ensures proof == TreesOf(h).metaProof((metas, i))
  {
    proof := MT.GetProof(tree, i, h, true, MetaItems(h, metas));
  }

  /** Proofs are not part of what is hashed. */
  lemma WithProofsMetas(trees: Trees, bundles: seq<Bundle>)
    ensures Metas(WithProofs(trees, bundles)) == Metas(bundles)
  {
    var metas, metas' := Metas(bundles), Metas(WithProofs(trees, bundles));
    forall i | 0 <= i < |bundles| ensures metas'[i] == metas[i] {
      assert WithProofs(trees, bundles)[i] == WithProof(trees, bundles, i);
      assert metas[i] == MetaOf(bundles[i]) && metas'[i] == MetaOf(WithProofs(trees, bundles)[i]);
    }
  }

  lemma ProofNext(trees: Trees, before: seq<Bundle>, i: nat)
    requires i < |before|
    ensures (WithProofs(trees, before)[..i] + before[i..])[i := WithProof(trees, before, i)]
            == WithProofs(trees, before)[..i + 1] + before[i + 1..]
  {
    assert WithProofs(trees, before)[i] == WithProof(trees, before, i);
    assert before[i..] == [before[i]] + before[i + 1..];
  }

  /** The first `i` bundles derived, the others as before. */
  function Half(trees: Trees, before: seq<Bundle>, i: nat): (r: seq<Bundle>)
    requires i <= |before|
    ensures |r| == |before|
  {
    Map(Deriver(trees), before[..i]) + before[i..]
  }

  lemma HalfBegun(trees: Trees, before: seq<Bundle>)
    ensures Half(trees, before, 0) == before
  {
  }

  lemma HalfIs(trees: Trees, before: seq<Bundle>, i: nat)
    requires i <= |before|
    ensures Half(trees, before, i) == Map(Deriver(trees), before[..i]) + before[i..]
  {
  }

  lemma HalfDone(trees: Trees, before: seq<Bundle>)
    ensures Half(trees, before, |before|) == Map(Deriver(trees), before)
  {
    assert before[..|before|] == before;
  }

  /** What becomes of the next bundle, whichever way it goes. */
  lemma HalfNext(trees: Trees, before: seq<Bundle>, i: nat)
    requires i < |before|
    ensures var half := Half(trees, before, i);
            && half[i] == before[i]
            && half[i := before[i]] == half
            && half[i := Rerooted(trees, before[i])]
               == Map(Deriver(trees), before[..i]) + [Rerooted(trees, before[i])] + before[i + 1..]
            && half[i := Derive(trees, before[i])] == Half(trees, before, i + 1)
  {
    hide Derive, Rerooted;
    assert before[i..] == [before[i]] + before[i + 1..];
    DeriveNext(trees, before, i);
  }

  lemma DeriveNext(trees: Trees, before: seq<Bundle>, i: nat)
    requires i < |before|
    ensures Map(Deriver(trees), before[..i]) + [Derive(trees, before[i])] == Map(Deriver(trees), before[..i + 1])
  {
    assert before[..i + 1] == before[..i] + [before[i]];
    MapAppend(Deriver(trees), before[..i], before[i]);
  }

  datatype BundleOutcome = Derived | Empty | Overflow

  /** One pass of the first loop: sort, re-root, re-sum. */
  method DeriveBundle(h: Hasher, b: Bundle) returns (next: Bundle, outcome: BundleOutcome)
    ensures outcome.Empty? <==> b.stakes == []
    ensures outcome.Derived? <==> Derivable(b)
    ensures outcome.Empty? ==> next == b
    ensures outcome.Overflow? ==> next == Rerooted(TreesOf(h), b)
    ensures outcome.Derived? ==> next == Derive(TreesOf(h), b)
  {
    hide TreesOf, TotalStake, SortByKey;
    next := b.(stakes := SortByKey(StakeKey, b.stakes));
    SortPermutes(StakeKey, b.stakes);
    var stakeRoot := StakeRoot(h, next.stakes);
    if stakeRoot.None? {
      return b, Empty;
    }
    next := next.(meta := next.meta.(stakeRoot := stakeRoot.value));
    var activeStake := SumStakes(next.stakes);
    TotalPermutes(next.stakes, b.stakes);
    if activeStake > U64_MAX {
      return next, Overflow;
    }
    next := next.(meta := next.meta.(activeStake := activeStake));
    return next, Derived;
  }

  method SumStakes(stakes: seq<StakeLeaf>) returns (total: nat)
    ensures total == TotalStake(stakes)
  {
    total := 0;
    ghost var amounts := Map(StakeAmount, stakes);
    for i := 0 to |stakes|
      invariant total == Sum(amounts[..i])
    {
      assert amounts[..i + 1] == amounts[..i] + [stakes[i].activeStake];
      total := total + stakes[i].activeStake;
    }
    assert amounts[..|amounts|] == amounts;
  }

  lemma TotalPermutes(s: seq<StakeLeaf>, t: seq<StakeLeaf>)
    requires multiset(s) == multiset(t)
    ensures TotalStake(s) == TotalStake(t)
  {
    MapPermutes(StakeAmount, s, t);
    SumPermutes(Map(StakeAmount, s), Map(StakeAmount, t));
  }
}
