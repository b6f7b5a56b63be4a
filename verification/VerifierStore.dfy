/** Indexing of an accepted snapshot into the tables, in place of the rows of its
    (network, slot), and the upload handler with its gates. */
module VerifierStore {
  import opened Bytes
  import opened Hashing
  import opened Sorting
  import opened Snapshot
  import opened Tables
  import opened Verifier
  import MT = MerkleTree

  datatype Store = Store(votes: Table<VoteRow>, stakes: Table<StakeRow>, metas: map<(string, u64), MetaRow>)

  const EMPTY: Store := Store(map[], map[], map[])

  // ----- acceptance

  /** Passed every gate up to the database. */
  ghost predicate Valid(trees: Trees, data: SnapshotData)
  {
    StakeRootsMatch(trees, data.bundles) && Coherent(data.bundles) && RootMatches(trees, data)
  }

  /** The numbers fit the signed 64-bit columns. */
  predicate Storable(data: SnapshotData)
  {
    data.slot <= I64_MAX && Total(data.bundles) <= I64_MAX
  }

  /** The answer to an upload, in the order the gates are tried. */
  ghost function StatusOf(trees: Trees, req: Request): Status
  {
    if !SupportedNetwork(req.network) then BadRequest
    else if !req.signatureValid then Unauthorized
    else if req.file.None? then BadRequest
    else
      var (data, hash) := req.file.value;
      if req.merkleRoot != Base58(data.root) || data.slot != req.slot
         || req.snapshotHash != Base58(hash)
      then BadRequest
      else if !Valid(trees, data) then BadRequest
      else if !req.databaseUp || !Storable(data) then Internal
      else Success
  }

  /** The store with the rows of one (network, slot) replaced by a snapshot's. */
  function Indexed(trees: Trees, store: Store, network: string, data: SnapshotData, root: Text, hash: Text): Store
  {
    Store(Replace(store.votes, network, data.slot, VoteEntries(trees, data.bundles)),
          Replace(store.stakes, network, data.slot, StakeEntries(trees, data.bundles)),
          store.metas[(network, data.slot) := MetaRow(root, hash, Total(data.bundles))])
  }

  ghost function Apply(trees: Trees, store: Store, req: Request): Store
  {
    if StatusOf(trees, req) == Success
    then Indexed(trees, store, req.network, req.file.value.0, req.merkleRoot, req.snapshotHash)
    else store
  }

  // ----- sums

  lemma {:induction false} PartOfTotal(bundles: seq<Bundle>, i: nat)
    requires i < |bundles|
    ensures bundles[i].meta.activeStake <= Total(bundles)
  {
    var n := |bundles| - 1;
    assert bundles == bundles[..n] + [bundles[n]];
    SumMapAppend(BundleStake, bundles[..n], bundles[n]);
    if i < n {
      PartOfTotal(bundles[..n], i);
    }
  }

  lemma {:induction false} PartOfStakes(stakes: seq<StakeLeaf>, j: nat)
    requires j < |stakes|
    ensures stakes[j].activeStake <= TotalStake(stakes)
  {
    var n := |stakes| - 1;
    assert stakes == stakes[..n] + [stakes[n]];
    TotalAppend(stakes[..n], stakes[n]);
    if j < n {
      PartOfStakes(stakes[..n], j);
    }
  }

  /** `total_active_stake`: the checked sum over the meta leaves. */
  method TotalActiveStake(bundles: seq<Bundle>) returns (r: Option<nat>)
    ensures r.Some? <==> Total(bundles) <= U64_MAX
    ensures r.Some? ==> r.value == Total(bundles)
  {
    var acc := 0;
    for i := 0 to |bundles|
      invariant acc == Total(bundles[..i]) <= U64_MAX
    {
      assert bundles[..i + 1] == bundles[..i] + [bundles[i]];
      SumMapAppend(BundleStake, bundles[..i], bundles[i]);
      if acc + bundles[i].meta.activeStake > U64_MAX {
        TotalPrefix(bundles, i + 1);
        return None;
      }
      acc := acc + bundles[i].meta.activeStake;
    }
    assert bundles[..|bundles|] == bundles;
    return Some(acc);
  }

  lemma {:induction false} TotalPrefix(bundles: seq<Bundle>, i: nat)
    requires i <= |bundles|
    ensures Total(bundles[..i]) <= Total(bundles)
    decreases |bundles| - i
  {
    if i < |bundles| {
      TotalPrefix(bundles, i + 1);
      assert bundles[..i + 1] == bundles[..i] + [bundles[i]];
      SumMapAppend(BundleStake, bundles[..i], bundles[i]);
    } else {
      assert bundles[..i] == bundles;
    }
  }

  // ----- indexing

  /** Inserts the stake rows of one bundle; a stake beyond the signed column
      range is an error. */
  method InsertStakeRows(h: Hasher, table0: Table<StakeRow>, network: string, slot: u64, b: Bundle)
    returns (r: Option<Table<StakeRow>>)
    ensures r.Some? <==> forall j :: 0 <= j < |b.stakes| ==> b.stakes[j].activeStake <= I64_MAX
    ensures r.Some? ==> r.value == Upsert(table0, network, slot, BundleStakeEntries(TreesOf(h), b))
  {
    hide Upsert, TreesOf;
    var tree := MT.New(h, StakeItems(h, b.stakes), true);
    ghost var entries := BundleStakeEntries(TreesOf(h), b);
    var table := table0;
    UpsertNothing(table0, network, slot, entries);
    for j := 0 to |b.stakes|
      invariant forall i :: 0 <= i < j ==> b.stakes[i].activeStake <= I64_MAX
      invariant table == Upsert(table0, network, slot, entries[..j])
    {
      var leaf := b.stakes[j];
      var proof := StakeProof(h, tree, j, b.stakes);
      if leaf.activeStake > I64_MAX {
        return None;
      }
      assert entries[j] == StakeEntry(TreesOf(h), b, j);
      assert entries[..j + 1] == entries[..j] + [entries[j]];
      UpsertAppend(table0, network, slot, entries[..j], entries[j]);
      var row := StakeRow(b.meta.voteAccount, leaf.votingWallet, leaf.activeStake, proof);
      table := table[(network, slot, leaf.stakeAccount) := row];
    }
    assert entries[..|entries|] == entries;
    return Some(table);
  }

  lemma UpsertNothing<R>(table: Table<R>, network: string, slot: u64, entries: seq<Entry<R>>)
    ensures Upsert(table, network, slot, entries[..0]) == table
  {
  }

  method StakeProof(h: Hasher, tree: MT.MerkleTree<Bytes32>, j: nat, ghost stakes: seq<StakeLeaf>)
    returns (proof: seq<Bytes32>)
    requires MT.Represents(tree, h, true, StakeItems(h, stakes)) && j < |stakes|
    ensures proof == TreesOf(h).stakeProof((stakes, j))
  {
    proof := MT.GetProof(tree, j, h, true, StakeItems(h, stakes));
  }

  /** All rows inserted so far come from the first `i` bundles. */
  ghost predicate Inserted(trees: Trees, votes0: Table<VoteRow>, stakes0: Table<StakeRow>, network: string, slot: u64,
                           bundles: seq<Bundle>, i: nat, votes: Table<VoteRow>, stakes: Table<StakeRow>)
    requires i <= |bundles|
  {
    && votes == Upsert(votes0, network, slot, VoteEntries(trees, bundles)[..i])
    && stakes == Upsert(stakes0, network, slot, StakeEntries(trees, bundles[..i]))
  }

  lemma InsertedStep(trees: Trees, votes0: Table<VoteRow>, stakes0: Table<StakeRow>, network: string, slot: u64,
                     bundles: seq<Bundle>, i: nat, votes: Table<VoteRow>, stakes: Table<StakeRow>)
    requires i < |bundles| && Inserted(trees, votes0, stakes0, network, slot, bundles, i, votes, stakes)
    ensures var e := VoteEntry(trees, bundles, i);
            Inserted(trees, votes0, stakes0, network, slot, bundles, i + 1, votes[(network, slot, e.0) := e.1],
                     Upsert(stakes, network, slot, BundleStakeEntries(trees, bundles[i])))
  {
    hide Upsert;
    var entries := VoteEntries(trees, bundles);
    assert entries[i] == VoteEntry(trees, bundles, i);
    assert entries[..i + 1] == entries[..i] + [entries[i]];
    UpsertAppend(votes0, network, slot, entries[..i], entries[i]);
    assert bundles[..i + 1] == bundles[..i] + [bundles[i]];
    UpsertConcat(stakes0, network, slot, StakeEntries(trees, bundles[..i]), BundleStakeEntries(trees, bundles[i]));
  }

  /** The loop over the bundles; any value beyond the signed column range aborts. */
  method InsertBundles(h: Hasher, votes0: Table<VoteRow>, stakes0: Table<StakeRow>, network: string,
                       slot: u64, bundles: seq<Bundle>, metaTree: MT.MerkleTree<Bytes32>)
    returns (r: Option<(Table<VoteRow>, Table<StakeRow>)>)
    requires MT.Represents(metaTree, h, true, MetaItems(h, Metas(bundles)))
    requires Coherent(bundles)
    ensures r.Some? <==> forall i :: 0 <= i < |bundles| ==> bundles[i].meta.activeStake <= I64_MAX
    ensures r.Some? ==> Inserted(TreesOf(h), votes0, stakes0, network, slot, bundles, |bundles|, r.value.0, r.value.1)
  {
    hide Inserted, TreesOf, Upsert, Total, TotalStake, AllStakes;
    var votes, stakes := votes0, stakes0;
    InsertedNothing(TreesOf(h), votes0, stakes0, network, slot, bundles);
    for i := 0 to |bundles|
      invariant Inserted(TreesOf(h), votes0, stakes0, network, slot, bundles, i, votes, stakes)
      invariant forall j :: 0 <= j < i ==> bundles[j].meta.activeStake <= I64_MAX
    {
      var b := bundles[i];
      var proof := MetaProof(h, metaTree, i, Metas(bundles));
      if b.meta.activeStake > I64_MAX {
        return None;
      }
      InsertedStep(TreesOf(h), votes0, stakes0, network, slot, bundles, i, votes, stakes);
      var row := VoteRow(b.meta.votingWallet, b.meta.stakeRoot, b.meta.activeStake, proof);
      votes := votes[(network, slot, b.meta.voteAccount) := row];
      var stakes' := InsertStakeRows(h, stakes, network, slot, b);
      if stakes'.None? {
        LeafBeyondRange(bundles, i);
        return None;
      }
      stakes := stakes'.value;
    }
    return Some((votes, stakes));
  }

  /** A leaf beyond the range puts its bundle beyond the range. */
  lemma LeafBeyondRange(bundles: seq<Bundle>, i: nat)
    requires Coherent(bundles) && i < |bundles|
    requires exists j :: 0 <= j < |bundles[i].stakes| && bundles[i].stakes[j].activeStake > I64_MAX
    ensures bundles[i].meta.activeStake > I64_MAX
  {
    var j :| 0 <= j < |bundles[i].stakes| && bundles[i].stakes[j].activeStake > I64_MAX;
    PartOfStakes(bundles[i].stakes, j);
  }

  lemma PartsInRange(bundles: seq<Bundle>)
    requires Total(bundles) <= I64_MAX
    ensures forall i :: 0 <= i < |bundles| ==> bundles[i].meta.activeStake <= I64_MAX
  {
    forall i | 0 <= i < |bundles| ensures bundles[i].meta.activeStake <= I64_MAX {
      PartOfTotal(bundles, i);
    }
  }

  lemma InsertedNothing(trees: Trees, votes0: Table<VoteRow>, stakes0: Table<StakeRow>, network: string, slot: u64,
                        bundles: seq<Bundle>)
    ensures Inserted(trees, votes0, stakes0, network, slot, bundles, 0, votes0, stakes0)
  {
    assert VoteEntries(trees, bundles)[..0] == [] && bundles[..0] == [];
  }

  class VerifierService {
    var votes: Table<VoteRow>
    var stakes: Table<StakeRow>
    var metas: map<(string, u64), MetaRow>

    constructor ()
      ensures Contents() == EMPTY
    {
      votes, stakes, metas := map[], map[], map[];
    }

    function Contents(): Store
      reads this
    {
      Store(votes, stakes, metas)
    }

    /** One transaction: delete the rows of this (network, slot), insert the
        snapshot's, record its metadata, commit; or leave everything as it was. */
    method IndexSnapshotData(h: Hasher, data: SnapshotData, metaTree: MT.MerkleTree<Bytes32>, network: string,
                             root: Text, hash: Text, databaseUp: bool) returns (ok: bool)
      requires MT.Represents(metaTree, h, true, MetaItems(h, Metas(data.bundles)))
      requires Coherent(data.bundles)
      modifies this
      ensures ok <==> databaseUp && Storable(data)
      ensures ok ==> Contents() == Indexed(TreesOf(h), old(Contents()), network, data, root, hash)
      ensures !ok ==> Contents() == old(Contents())
    {
      hide Coherent, TreesOf, Upsert, Total, VoteEntries, StakeEntries;
      if data.slot > I64_MAX {
        return false;
      }
      var votes0, stakes0 := Clear(votes, network, data.slot), Clear(stakes, network, data.slot);
      var tx := InsertBundles(h, votes0, stakes0, network, data.slot, data.bundles, metaTree);
      if tx.None? {
        if Total(data.bundles) <= I64_MAX {
          PartsInRange(data.bundles);
        }
        return false;
      }
      var total := TotalActiveStake(data.bundles);
      if total.None? || total.value > I64_MAX {
        return false;
      }
      if !databaseUp {
        return false;
      }
      AllInserted(TreesOf(h), votes0, stakes0, network, data.slot, data.bundles, tx.value.0, tx.value.1);
      votes, stakes := tx.value.0, tx.value.1;
      metas := metas[(network, data.slot) := MetaRow(root, hash, total.value)];
      return true;
    }

    /** `reconstruct_meta_merkle_tree`. */
    method ReconstructMetaMerkleTree(h: Hasher, data: SnapshotData) returns (tree: Option<MT.MerkleTree<Bytes32>>)
      ensures tree.Some? <==> RootMatches(TreesOf(h), data)
      ensures tree.Some? ==> MT.Represents(tree.value, h, true, MetaItems(h, Metas(data.bundles)))
    {
      hide TreesOf, MT.Represents;
      var metaTree, root := MetaTree(h, Metas(data.bundles));
      if root.None? || root.value != data.root {
        return None;
      }
      return Some(metaTree);
    }

    method HandleUpload(h: Hasher, req: Request) returns (status: Status)
      modifies this
      ensures status == StatusOf(TreesOf(h), req)
      ensures Contents() == Apply(TreesOf(h), old(Contents()), req)
    {
      hide TreesOf, MT.Represents, Coherent, StakeRootsMatch, RootMatches, Storable, Indexed;
      if !(req.network == "devnet" || req.network == "testnet" || req.network == "mainnet") {
        return BadRequest;
      }
      if !req.signatureValid {
        return Unauthorized;
      }
      if req.file.None? {
        return BadRequest;
      }
      var (data, hash) := req.file.value;
      if Base58(data.root) != req.merkleRoot || data.slot != req.slot || Base58(hash) != req.snapshotHash {
        return BadRequest;
      }
      var rootsOk := ValidateStakeMerkleRoots(h, data.bundles);
      if !rootsOk {
        return BadRequest;
      }
      var contentsOk := ValidateSnapshot(data.bundles);
      if !contentsOk {
        return BadRequest;
      }
      var metaTree := ReconstructMetaMerkleTree(h, data);
      if metaTree.None? {
        return BadRequest;
      }
      var indexed := IndexSnapshotData(h, data, metaTree.value, req.network, req.merkleRoot, Base58(hash),
                                       req.databaseUp);
      return if indexed then Success else Internal;
    }
  }

  lemma AllInserted(trees: Trees, votes0: Table<VoteRow>, stakes0: Table<StakeRow>, network: string, slot: u64,
                    bundles: seq<Bundle>, votes: Table<VoteRow>, stakes: Table<StakeRow>)
    requires Inserted(trees, votes0, stakes0, network, slot, bundles, |bundles|, votes, stakes)
    ensures votes == Upsert(votes0, network, slot, VoteEntries(trees, bundles))
    ensures stakes == Upsert(stakes0, network, slot, StakeEntries(trees, bundles))
  {
    var entries := VoteEntries(trees, bundles);
    assert entries[..|bundles|] == entries && bundles[..|bundles|] == bundles;
  }
}
