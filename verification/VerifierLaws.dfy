/** The store over every sequence of uploads, and which snapshots get in. */
module VerifierLaws {
  import opened Bytes
  import opened Hashing
  import opened MerkleProofs
  import opened Sorting
  import opened Snapshot
  import opened SnapshotLaws
  import opened Tables
  import opened Verifier
  import opened VerifierStore

  // ----- histories

  /** The store after a sequence of uploads to an empty service. */
  ghost function StoreAfter(trees: Trees, reqs: seq<Request>): Store
  {
    if reqs == [] then EMPTY
    else Apply(trees, StoreAfter(trees, reqs[..|reqs| - 1]), reqs[|reqs| - 1])
  }

  ghost predicate AcceptedFor(trees: Trees, req: Request, network: string, slot: u64)
  {
    StatusOf(trees, req) == Success && req.network == network && req.slot == slot
  }

  /** The last accepted upload for this (network, slot), if any. */
  ghost function LastAccepted(trees: Trees, reqs: seq<Request>, network: string, slot: u64): Option<Request>
  {
    if reqs == [] then None
    else if AcceptedFor(trees, reqs[|reqs| - 1], network, slot) then Some(reqs[|reqs| - 1])
    else LastAccepted(trees, reqs[..|reqs| - 1], network, slot)
  }

  /** What the store must hold for (network, slot), given the last accepted upload. */
  ghost predicate Reflects(trees: Trees, store: Store, network: string, slot: u64, last: Option<Request>)
  {
    match last
    case None =>
      && Holds(store.votes, network, slot, [])
      && Holds(store.stakes, network, slot, [])
      && (network, slot) !in store.metas
    case Some(req) =>
      && AcceptedFor(trees, req, network, slot)
      && var bundles := req.file.value.0.bundles;
      && Holds(store.votes, network, slot, VoteEntries(trees, bundles))
      && Holds(store.stakes, network, slot, StakeEntries(trees, bundles))
      && (network, slot) in store.metas
      && store.metas[(network, slot)] == MetaRow(req.merkleRoot, req.snapshotHash, Total(bundles))
  }

  lemma VoteEntriesDistinct(trees: Trees, bundles: seq<Bundle>)
    requires Coherent(bundles)
    ensures DistinctKeys(EntryKey, VoteEntries(trees, bundles))
  {
    hide AllStakes, TotalStake;
    var entries := VoteEntries(trees, bundles);
    forall i | 0 <= i < |entries| ensures EntryKey(entries[i]) == VoteKey(bundles[i]) {
      assert entries[i] == VoteEntry(trees, bundles, i);
    }
  }

  lemma {:induction false} StakeEntryKeys(trees: Trees, bundles: seq<Bundle>)
    ensures Map(EntryKey, StakeEntries(trees, bundles)) == Map(StakeKey, AllStakes(bundles))
  {
    if bundles != [] {
      var n := |bundles| - 1;
      var b := bundles[n];
      StakeEntryKeys(trees, bundles[..n]);
      BundleEntryKeys(trees, b);
      MapConcat(EntryKey, StakeEntries(trees, bundles[..n]), BundleStakeEntries(trees, b));
      MapConcat(StakeKey, AllStakes(bundles[..n]), b.stakes);
    }
  }

  lemma BundleEntryKeys(trees: Trees, b: Bundle)
    ensures Map(EntryKey, BundleStakeEntries(trees, b)) == Map(StakeKey, b.stakes)
  {
    var entries := BundleStakeEntries(trees, b);
    forall j | 0 <= j < |entries| ensures EntryKey(entries[j]) == StakeKey(b.stakes[j]) {
      assert entries[j] == StakeEntry(trees, b, j);
    }
  }

  lemma StakeEntriesDistinct(trees: Trees, bundles: seq<Bundle>)
    requires Coherent(bundles)
    ensures DistinctKeys(EntryKey, StakeEntries(trees, bundles))
  {
    StakeEntryKeys(trees, bundles);
    SameKeysDistinct(StakeKey, AllStakes(bundles), EntryKey, StakeEntries(trees, bundles));
  }

  /** Indexing makes the store reflect the upload and disturbs nothing else. */
  lemma ApplyReflects(trees: Trees, store: Store, req: Request, network: string, slot: u64, last: Option<Request>)
    requires Reflects(trees, store, network, slot, last)
    ensures Reflects(trees, Apply(trees, store, req), network, slot,
                     if AcceptedFor(trees, req, network, slot) then Some(req) else last)
  {
    hide Holds, Replace, Coherent, SameElsewhere, StakeRootsMatch, RootMatches, Storable, VoteEntries, StakeEntries,
         Total;
    if StatusOf(trees, req) == Success {
      var data := req.file.value.0;
      VoteEntriesDistinct(trees, data.bundles);
      StakeEntriesDistinct(trees, data.bundles);
      ReplaceHolds(store.votes, req.network, req.slot, VoteEntries(trees, data.bundles));
      ReplaceHolds(store.stakes, req.network, req.slot, StakeEntries(trees, data.bundles));
      var after := Apply(trees, store, req);
      if req.network != network || req.slot != slot {
        var votes := if last.None? then [] else VoteEntries(trees, last.value.file.value.0.bundles);
        var stakes := if last.None? then [] else StakeEntries(trees, last.value.file.value.0.bundles);
        HoldsElsewhere(store.votes, after.votes, req.network, req.slot, network, slot, votes);
        HoldsElsewhere(store.stakes, after.stakes, req.network, req.slot, network, slot, stakes);
      }
    }
  }

  /** After any uploads, accepted or not, each (network, slot) holds exactly the
      rows of the last upload accepted for it. */
  lemma {:induction false} StoreReflectsLastAccepted(trees: Trees, reqs: seq<Request>, network: string, slot: u64)
    ensures Reflects(trees, StoreAfter(trees, reqs), network, slot, LastAccepted(trees, reqs, network, slot))
  {
    hide Reflects, Apply, AcceptedFor;
    if reqs == [] {
      EmptyReflects(trees, network, slot);
    } else {
      var n := |reqs| - 1;
      StoreReflectsLastAccepted(trees, reqs[..n], network, slot);
      ApplyReflects(trees, StoreAfter(trees, reqs[..n]), reqs[n], network, slot,
                    LastAccepted(trees, reqs[..n], network, slot));
    }
  }

  lemma EmptyReflects(trees: Trees, network: string, slot: u64)
    ensures Reflects(trees, EMPTY, network, slot, None)
  {
  }

  // ----- what gets in

  /** A signed request for one of the three networks, whose file is the snapshot
      that was signed for and stands up to its own contents: every stake root is
      that of its leaves, no account occurs twice, the sums agree and the root is
      that of the meta leaves. */
  ghost predicate SignedAndSound(trees: Trees, req: Request)
  {
    && req.network in {"devnet", "testnet", "mainnet"} && req.signatureValid
    && req.file.Some?
    && var (data, hash) := req.file.value;
    && data.slot == req.slot && req.merkleRoot == Base58(data.root) && req.snapshotHash == Base58(hash)
    && (forall b :: b in data.bundles ==> b.stakes != [] && b.meta.stakeRoot == trees.stakeRoot(b.stakes)
                                          && b.meta.activeStake == TotalStake(b.stakes))
    && DistinctKeys(VoteKey, data.bundles) && DistinctKeys(StakeKey, AllStakes(data.bundles))
    && data.bundles != [] && data.root == trees.metaRoot(Metas(data.bundles))
  }

  /** The slot and the stake fit the signed columns and the database is there. */
  predicate Recordable(req: Request)
    requires req.file.Some?
  {
    req.databaseUp && req.slot <= I64_MAX && Total(req.file.value.0.bundles) <= I64_MAX
  }

  /** Each answer is given exactly when its reason holds. */
  lemma StatusIff(trees: Trees, req: Request)
    ensures StatusOf(trees, req).Success? <==> SignedAndSound(trees, req) && Recordable(req)
    ensures StatusOf(trees, req).Internal? <==> SignedAndSound(trees, req) && !Recordable(req)
    ensures StatusOf(trees, req).Unauthorized?
            <==> req.network in {"devnet", "testnet", "mainnet"} && !req.signatureValid
    ensures StatusOf(trees, req).BadRequest?
            <==> req.network !in {"devnet", "testnet", "mainnet"}
                 || (req.signatureValid && !SignedAndSound(trees, req))
  {
    hide TotalStake, AllStakes, Total, DistinctKeys;
    if req.file.Some? {
      EachBundle(trees, req.file.value.0.bundles);
    }
  }

  lemma EachBundle(trees: Trees, bundles: seq<Bundle>)
    ensures (forall b :: b in bundles ==> b.stakes != [] && b.meta.stakeRoot == trees.stakeRoot(b.stakes)
                                          && b.meta.activeStake == TotalStake(b.stakes))
            <==> && StakeRootsMatch(trees, bundles)
                 && forall i :: 0 <= i < |bundles| ==> bundles[i].meta.activeStake == TotalStake(bundles[i].stakes)
  {
    hide TotalStake;
    forall i | 0 <= i < |bundles| ensures bundles[i] in bundles {
    }
  }

  /** Without a valid signature, or for another network, nothing is stored. */
  lemma UnsignedChangesNothing(trees: Trees, store: Store, req: Request)
    requires !req.signatureValid || req.network !in {"devnet", "testnet", "mainnet"}
    ensures Apply(trees, store, req) == store
  {
    hide SignedAndSound, StatusOf;
    StatusIff(trees, req);
    SoundIsSigned(trees, req);
  }

  lemma SoundIsSigned(trees: Trees, req: Request)
    ensures SignedAndSound(trees, req) ==> req.signatureValid && req.network in {"devnet", "testnet", "mainnet"}
  {
  }

  /** The rows and the record of (network, slot) are those of this upload's file. */
  ghost predicate StoredFrom(trees: Trees, store: Store, req: Request)
    requires req.file.Some?
  {
    var bundles := req.file.value.0.bundles;
    && Holds(store.votes, req.network, req.slot, VoteEntries(trees, bundles))
    && Holds(store.stakes, req.network, req.slot, StakeEntries(trees, bundles))
    && (req.network, req.slot) in store.metas
    && store.metas[(req.network, req.slot)] == MetaRow(req.merkleRoot, req.snapshotHash, Total(bundles))
  }

  /** Something is held for (network, slot). */
  ghost predicate Occupied(store: Store, network: string, slot: u64)
  {
    || (exists account :: (network, slot, account) in store.votes)
    || (exists account :: (network, slot, account) in store.stakes)
    || (network, slot) in store.metas
  }

  /** After any uploads, whatever is held for (network, slot) was put there by a
      signed and sound upload for it, and is that upload's file, whole. */
  lemma HeldWasSigned(trees: Trees, reqs: seq<Request>, network: string, slot: u64)
    requires Occupied(StoreAfter(trees, reqs), network, slot)
    ensures exists i :: && 0 <= i < |reqs| && reqs[i].network == network && reqs[i].slot == slot
                        && SignedAndSound(trees, reqs[i])
                        && StoredFrom(trees, StoreAfter(trees, reqs), reqs[i])
  {
    hide StoreAfter, LastAccepted, SignedAndSound, StatusOf, VoteEntries, StakeEntries, Total;
    StoreReflectsLastAccepted(trees, reqs, network, slot);
    var last := LastAccepted(trees, reqs, network, slot);
    if last.Some? {
      LastIsListed(trees, reqs, network, slot);
      StatusIff(trees, last.value);
    }
  }

  /** Every leaf of that file is there, as it stands in the file. */
  lemma LeavesAreServed(trees: Trees, store: Store, req: Request, i: nat, j: nat)
    requires req.file.Some? && StoredFrom(trees, store, req)
    requires i < |req.file.value.0.bundles| && j < |req.file.value.0.bundles[i].stakes|
    ensures var b := req.file.value.0.bundles[i];
            var voteKey := (req.network, req.slot, VoteKey(b));
            var stakeKey := (req.network, req.slot, StakeKey(b.stakes[j]));
            && voteKey in store.votes && MetaLeafOfRow(VoteKey(b), store.votes[voteKey]) == b.meta
            && stakeKey in store.stakes && StakeLeafOfRow(StakeKey(b.stakes[j]), store.stakes[stakeKey]) == b.stakes[j]
            && store.stakes[stakeKey].voteAccount == VoteKey(b)
  {
    hide Total;
    var bundles := req.file.value.0.bundles;
    assert VoteEntries(trees, bundles)[i] == VoteEntry(trees, bundles, i);
    var own := BundleStakeEntries(trees, bundles[i]);
    assert own[j] == StakeEntry(trees, bundles[i], j);
    FlatMapWithout(StakeEntriesOf(trees), bundles, i);
    assert own[j] in multiset(own) && own[j] in multiset(StakeEntries(trees, bundles));
  }

  lemma {:induction false} LastIsListed(trees: Trees, reqs: seq<Request>, network: string, slot: u64)
    requires LastAccepted(trees, reqs, network, slot).Some?
    ensures LastAccepted(trees, reqs, network, slot).value in reqs
  {
    hide AcceptedFor;
    if !AcceptedFor(trees, reqs[|reqs| - 1], network, slot) {
      LastIsListed(trees, reqs[..|reqs| - 1], network, slot);
    }
  }

  // ----- every row that is served verifies

  /** The meta leaf that a vote row stands for. */
  function MetaLeafOfRow(voteAccount: Pubkey, row: VoteRow): MetaLeaf
  {
    MetaLeaf(row.votingWallet, voteAccount, row.stakeRoot, row.activeStake)
  }

  function StakeLeafOfRow(stakeAccount: Pubkey, row: StakeRow): StakeLeaf
  {
    StakeLeaf(row.votingWallet, stakeAccount, row.activeStake)
  }

  /** A stake proof taken from the trees verifies against the root taken from them. */
  lemma StakeProofVerifies(h: Hasher, stakes: seq<StakeLeaf>, j: nat)
    requires j < |stakes|
    ensures Verifies(h, h(StakeContent(stakes[j])), TreesOf(h).stakeProof((stakes, j)), TreesOf(h).stakeRoot(stakes))
  {
    Completeness(h, StakeItems(h, stakes), j);
    assert StakeItems(h, stakes)[j] == h(StakeContent(stakes[j]));
  }

  /** The upload a (network, slot) with rows goes back to. */
  lemma RowHasUpload(trees: Trees, reqs: seq<Request>, key: RowKey)
    requires key in StoreAfter(trees, reqs).votes || key in StoreAfter(trees, reqs).stakes
    ensures LastAccepted(trees, reqs, key.0, key.1).Some?
    ensures Reflects(trees, StoreAfter(trees, reqs), key.0, key.1, LastAccepted(trees, reqs, key.0, key.1))
  {
    hide LastAccepted, StoreAfter;
    StoreReflectsLastAccepted(trees, reqs, key.0, key.1);
  }

  /** Every vote row ever served comes with a proof that folds to the root
      recorded for its (network, slot). */
  lemma ServedVoteProofVerifies(h: Hasher, reqs: seq<Request>, key: RowKey)
    requires key in StoreAfter(TreesOf(h), reqs).votes
    ensures (key.0, key.1) in StoreAfter(TreesOf(h), reqs).metas
    ensures var store := StoreAfter(TreesOf(h), reqs);
            var row, root := store.votes[key], store.metas[(key.0, key.1)].merkleRoot;
            root.Base58? && Verifies(h, h(MetaContent(MetaLeafOfRow(key.2, row))), row.proof, root.of)
  {
    hide TreesOf, StoreAfter, LastAccepted, Verifies, Coherent, StakeRootsMatch, Total, MetaContent;
    var trees := TreesOf(h);
    RowHasUpload(trees, reqs, key);
    var req := LastAccepted(trees, reqs, key.0, key.1).value;
    var bundles := req.file.value.0.bundles;
    var entries := VoteEntries(trees, bundles);
    var i :| 0 <= i < |entries| && entries[i].0 == key.2;
    assert entries[i] == VoteEntry(trees, bundles, i);
    assert key == (key.0, key.1, key.2);
    assert Metas(bundles)[i] == MetaOf(bundles[i]);
    MetaProofVerifies(h, Metas(bundles), i);
  }

  /** Every stake row ever served belongs to a vote row of the same (network,
      slot), and its proof folds to that row's stake root. */
  lemma ServedStakeProofVerifies(h: Hasher, reqs: seq<Request>, key: RowKey)
    requires key in StoreAfter(TreesOf(h), reqs).stakes
    ensures var store := StoreAfter(TreesOf(h), reqs);
            var row := store.stakes[key];
            var voteKey := (key.0, key.1, row.voteAccount);
            voteKey in store.votes
            && Verifies(h, h(StakeContent(StakeLeafOfRow(key.2, row))), row.proof, store.votes[voteKey].stakeRoot)
  {
    hide TreesOf, StoreAfter, LastAccepted, Verifies, Coherent, RootMatches, Total, StakeContent;
    var trees, store := TreesOf(h), StoreAfter(TreesOf(h), reqs);
    RowHasUpload(trees, reqs, key);
    var req := LastAccepted(trees, reqs, key.0, key.1).value;
    var bundles := req.file.value.0.bundles;
    var entries := StakeEntries(trees, bundles);
    var e :| 0 <= e < |entries| && entries[e].0 == key.2;
    assert key == (key.0, key.1, key.2);
    var i := FlatMapFrom(StakeEntriesOf(trees), bundles, entries[e]);
    var own := BundleStakeEntries(trees, bundles[i]);
    var j :| 0 <= j < |own| && own[j] == entries[e];
    assert own[j] == StakeEntry(trees, bundles[i], j);
    StakeProofVerifies(h, bundles[i].stakes, j);
    var votes := VoteEntries(trees, bundles);
    assert votes[i] == VoteEntry(trees, bundles, i);
  }

  // ----- the recorded total

  function VoteRowStake(row: VoteRow): nat { row.activeStake }

  function StakeRowStake(row: StakeRow): nat { row.activeStake }

  function VoteEntryStake(e: Entry<VoteRow>): nat { e.1.activeStake }

  function StakeEntryStake(e: Entry<StakeRow>): nat { e.1.activeStake }

  lemma VoteRowsTotal(trees: Trees, bundles: seq<Bundle>)
    ensures Sum(Map(VoteEntryStake, VoteEntries(trees, bundles))) == Total(bundles)
  {
    var entries := VoteEntries(trees, bundles);
    forall i | 0 <= i < |entries| ensures VoteEntryStake(entries[i]) == BundleStake(bundles[i]) {
      assert entries[i] == VoteEntry(trees, bundles, i);
    }
    assert Map(VoteEntryStake, entries) == Map(BundleStake, bundles);
  }

  lemma {:induction false} StakeRowsTotal(trees: Trees, bundles: seq<Bundle>)
    requires forall i :: 0 <= i < |bundles| ==> bundles[i].meta.activeStake == TotalStake(bundles[i].stakes)
    ensures Sum(Map(StakeEntryStake, StakeEntries(trees, bundles))) == Total(bundles)
  {
    if bundles != [] {
      var n := |bundles| - 1;
      var b := bundles[n];
      StakeRowsTotal(trees, bundles[..n]);
      BundleRowsTotal(trees, b);
      assert bundles == bundles[..n] + [b];
      SumMapAppend(BundleStake, bundles[..n], b);
      MapConcat(StakeEntryStake, StakeEntries(trees, bundles[..n]), BundleStakeEntries(trees, b));
      SumConcat(Map(StakeEntryStake, StakeEntries(trees, bundles[..n])),
                Map(StakeEntryStake, BundleStakeEntries(trees, b)));
    }
  }

  lemma BundleRowsTotal(trees: Trees, b: Bundle)
    ensures Sum(Map(StakeEntryStake, BundleStakeEntries(trees, b))) == TotalStake(b.stakes)
  {
    var entries := BundleStakeEntries(trees, b);
    forall j | 0 <= j < |entries| ensures StakeEntryStake(entries[j]) == StakeAmount(b.stakes[j]) {
      assert entries[j] == StakeEntry(trees, b, j);
    }
    assert Map(StakeEntryStake, entries) == Map(StakeAmount, b.stakes);
  }

  /** For every (network, slot) with a record, after any uploads, the recorded
      total is the sum of the vote rows held for it and the sum of the stake rows
      held for it, and it never wrapped. */
  lemma RecordedTotalConserved(trees: Trees, reqs: seq<Request>, network: string, slot: u64)
    requires (network, slot) in StoreAfter(trees, reqs).metas
    ensures var store := StoreAfter(trees, reqs);
            var total := store.metas[(network, slot)].totalActiveStake;
            && total == HeldSum(store.votes, network, slot, VoteRowStake)
            && total == HeldSum(store.stakes, network, slot, StakeRowStake)
            && total <= I64_MAX
  {
    hide StoreAfter, LastAccepted, VoteEntries, StakeEntries, Total, StakeRootsMatch, RootMatches, AllStakes,
         TotalStake, Holds, HeldSum, Sum, DistinctKeys;
    StoreReflectsLastAccepted(trees, reqs, network, slot);
    var store := StoreAfter(trees, reqs);
    var bundles := LastAccepted(trees, reqs, network, slot).value.file.value.0.bundles;
    VoteEntriesDistinct(trees, bundles);
    StakeEntriesDistinct(trees, bundles);
    HeldSumIs(store.votes, network, slot, VoteEntries(trees, bundles), VoteRowStake);
    HeldSumIs(store.stakes, network, slot, StakeEntries(trees, bundles), StakeRowStake);
    SameAmounts(VoteEntries(trees, bundles), StakeEntries(trees, bundles));
    VoteRowsTotal(trees, bundles);
    StakeRowsTotal(trees, bundles);
  }

  lemma SameAmounts(votes: seq<Entry<VoteRow>>, stakes: seq<Entry<StakeRow>>)
    ensures Map(EntryAmount(VoteRowStake), votes) == Map(VoteEntryStake, votes)
    ensures Map(EntryAmount(StakeRowStake), stakes) == Map(StakeEntryStake, stakes)
  {
    forall i | 0 <= i < |votes| ensures EntryAmount(VoteRowStake)(votes[i]) == VoteEntryStake(votes[i]) {
      assert VoteRowStake(votes[i].1) == votes[i].1.activeStake;
    }
    forall i | 0 <= i < |stakes| ensures EntryAmount(StakeRowStake)(stakes[i]) == StakeEntryStake(stakes[i]) {
      assert StakeRowStake(stakes[i].1) == stakes[i].1.activeStake;
    }
  }

  // ----- which re-derived snapshots pass the gates

  lemma RemerklizedStakeRoots(trees: Trees, bundles: seq<Bundle>)
    requires Remerklizable(bundles)
    ensures StakeRootsMatch(trees, Remerklized(trees, bundles))
    ensures forall i :: 0 <= i < |Remerklized(trees, bundles)| ==>
              Remerklized(trees, bundles)[i].meta.activeStake == TotalStake(Remerklized(trees, bundles)[i].stakes)
  {
    hide TotalStake;
    var r := Remerklized(trees, bundles);
    RemerklizedNormal(trees, bundles);
    var derived := Map(Deriver(trees), bundles);
    var sorted := SortByKey(VoteKey, derived);
    SortPermutes(VoteKey, derived);
    forall i | 0 <= i < |r|
      ensures r[i].stakes != [] && r[i].meta.stakeRoot == trees.stakeRoot(r[i].stakes)
              && r[i].meta.activeStake == TotalStake(r[i].stakes)
    {
      assert r[i] == WithProof(trees, sorted, i);
      assert sorted[i] in multiset(derived);
      var j :| 0 <= j < |derived| && derived[j] == sorted[i];
      DerivedFields(trees, bundles[j]);
    }
  }

  lemma DerivedFields(trees: Trees, b: Bundle)
    requires Derivable(b)
    ensures var d := Derive(trees, b);
            d.stakes != [] && d.meta.stakeRoot == trees.stakeRoot(d.stakes)
            && d.meta.activeStake == TotalStake(d.stakes)
            && VoteKey(d) == VoteKey(b) && multiset(d.stakes) == multiset(b.stakes)
  {
    SortPermutes(StakeKey, b.stakes);
    TotalPermutes(SortByKey(StakeKey, b.stakes), b.stakes);
  }

  lemma DeriveKeepsPopulation(trees: Trees, bundles: seq<Bundle>)
    requires Remerklizable(bundles)
    ensures multiset(AllStakes(Map(Deriver(trees), bundles))) == multiset(AllStakes(bundles))
    ensures Map(VoteKey, Map(Deriver(trees), bundles)) == Map(VoteKey, bundles)
  {
    hide Derive, TotalStake;
    var derived := Map(Deriver(trees), bundles);
    forall i | 0 <= i < |bundles|
      ensures multiset(StakesOf(derived[i])) == multiset(StakesOf(bundles[i]))
              && VoteKey(derived[i]) == VoteKey(bundles[i])
    {
      DerivedFields(trees, bundles[i]);
    }
    FlatMapPointwise(StakesOf, derived, bundles);
  }

  lemma ProofsKeepPopulation(trees: Trees, bundles: seq<Bundle>)
    ensures multiset(AllStakes(WithProofs(trees, bundles))) == multiset(AllStakes(bundles))
    ensures Map(VoteKey, WithProofs(trees, bundles)) == Map(VoteKey, bundles)
  {
    var r := WithProofs(trees, bundles);
    forall i | 0 <= i < |r| ensures StakesOf(r[i]) == StakesOf(bundles[i]) && VoteKey(r[i]) == VoteKey(bundles[i]) {
      assert r[i] == WithProof(trees, bundles, i);
    }
    FlatMapPointwise(StakesOf, r, bundles);
  }

  /** Re-deriving neither adds nor loses a stake leaf or a vote account. */
  lemma RemerklizedPopulation(trees: Trees, bundles: seq<Bundle>)
    requires Remerklizable(bundles)
    ensures multiset(AllStakes(Remerklized(trees, bundles))) == multiset(AllStakes(bundles))
    ensures DistinctKeys(VoteKey, Remerklized(trees, bundles)) <==> DistinctKeys(VoteKey, bundles)
  {
    hide WithProofs, Deriver;
    var derived := Map(Deriver(trees), bundles);
    var sorted := SortByKey(VoteKey, derived);
    SortPermutes(VoteKey, derived);
    DeriveKeepsPopulation(trees, bundles);
    ProofsKeepPopulation(trees, sorted);
    FlatMapPermutes(StakesOf, sorted, derived);
    if DistinctKeys(VoteKey, bundles) {
      SameKeysDistinct(VoteKey, bundles, VoteKey, derived);
      DistinctPermute(VoteKey, derived, sorted);
      SameKeysDistinct(VoteKey, sorted, VoteKey, WithProofs(trees, sorted));
    }
    if DistinctKeys(VoteKey, WithProofs(trees, sorted)) {
      SameKeysDistinct(VoteKey, WithProofs(trees, sorted), VoteKey, sorted);
      DistinctPermute(VoteKey, sorted, derived);
      SameKeysDistinct(VoteKey, derived, VoteKey, bundles);
    }
  }

  function Remerklize(trees: Trees, bundles: seq<Bundle>, slot: u64): SnapshotData
  {
    var r := Remerklized(trees, bundles);
    SnapshotData(trees.metaRoot(Metas(r)), r, slot)
  }

  /** A re-derived snapshot passes every check of the verifier exactly when no
      vote account and no stake account occurs twice. */
  lemma RemerklizedPassesIff(trees: Trees, bundles: seq<Bundle>, slot: u64)
    requires Remerklizable(bundles)
    ensures Valid(trees, Remerklize(trees, bundles, slot))
            <==> DistinctKeys(VoteKey, bundles) && DistinctKeys(StakeKey, AllStakes(bundles))
  {
    hide AllStakes, TotalStake, Derivable;
    var r := Remerklized(trees, bundles);
    RemerklizedStakeRoots(trees, bundles);
    RemerklizedPopulation(trees, bundles);
    SortPermutes(VoteKey, Map(Deriver(trees), bundles));
    if DistinctKeys(StakeKey, AllStakes(bundles)) {
      DistinctPermute(StakeKey, AllStakes(bundles), AllStakes(r));
    }
    if DistinctKeys(StakeKey, AllStakes(r)) {
      DistinctPermute(StakeKey, AllStakes(r), AllStakes(bundles));
    }
  }
}
