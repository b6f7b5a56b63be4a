/** The assumptions of the voting theorems can be met: a smallest election, with
    one validator and one delegator, in which a vote is accepted. */
module VotingExample {
  import opened Bytes
  import opened TreeShape
  import opened Hashing
  import opened Snapshot
  import opened Verifier
  import opened VerifierStore
  import opened Voting
  import opened VotingTheorems

  function Tagged(tag: u8): Bytes32 { seq(32, i => if i == 0 then tag else 0) }

  /** Tells apart the four strings that get hashed here. */
  function SmallHash(x: Bytes): Bytes32
  {
    if |x| == 72 then Tagged(1)
    else if |x| == 104 then Tagged(2)
    else if |x| == 33 then Tagged((x[1] as int + 2) % 0x100)
    else Tagged(0)
  }

  function Leaf(): StakeLeaf { StakeLeaf(Tagged(10), Tagged(11), 1_000) }

  function Meta(): MetaLeaf { MetaLeaf(Tagged(12), Tagged(13), Tagged(3), 1_000) }

  function Data(): SnapshotData { SnapshotData(Tagged(4), [Bundle(Meta(), [Leaf()], Some([]))], 7) }

  function SmallVote(): Tx
  {
    CastVote(Ballot(Tagged(12), 5, Tagged(13), Split(7_000, 3_000, 0), Meta(), []))
  }

  ghost function Strings(): set<Bytes>
  {
    {StakeContent(Leaf()), MetaContent(Meta()), LeafInput(Tagged(1)), LeafInput(Tagged(2))}
  }

  lemma OneItem(h: Hasher, items: seq<Bytes>)
    requires |items| == 1
    ensures Root(h, true, items) == Some(HashLeaf(h, items[0]))
    ensures TreeInputs(h, true, items) == {LeafInput(items[0])}
  {
    assert Height(1) == 0 && LevelLen(1, 0) == 1;
    assert InputAt(h, true, items, 0, 0) == LeafInput(items[0]);
  }

  lemma Hashes()
    ensures SmallHash(StakeContent(Leaf())) == Tagged(1) && SmallHash(MetaContent(Meta())) == Tagged(2)
    ensures SmallHash(LeafInput(Tagged(1))) == Tagged(3) && SmallHash(LeafInput(Tagged(2))) == Tagged(4)
  {
    hide LittleEndian;
    assert |StakeContent(Leaf())| == 72 && |MetaContent(Meta())| == 104;
    assert LeafInput(Tagged(1))[1] == 1 && LeafInput(Tagged(2))[1] == 2;
  }

  lemma NoCollision()
    ensures CollisionFreeOn(SmallHash, Strings())
  {
    hide SmallHash, StakeContent, MetaContent, LeafInput;
    Hashes();
    forall i: u8, j: u8 | i != j ensures Tagged(i) != Tagged(j) {
      assert Tagged(i)[0] == i && Tagged(j)[0] == j;
    }
  }

  lemma Items()
    ensures MetaItems(SmallHash, Metas(Data().bundles)) == [Tagged(2)]
    ensures StakeItems(SmallHash, [Leaf()]) == [Tagged(1)]
  {
    hide SmallHash, StakeContent, MetaContent;
    Hashes();
    assert Metas(Data().bundles)[0] == MetaOf(Data().bundles[0]);
    assert MetaItems(SmallHash, Metas(Data().bundles))[0] == MetaHasher(SmallHash)(Metas(Data().bundles)[0]);
    assert StakeItems(SmallHash, [Leaf()])[0] == StakeHasher(SmallHash)(Leaf());
  }

  /** The snapshot is one the verifier accepts. */
  lemma DataIsValid()
    ensures Valid(TreesOf(SmallHash), Data())
  {
    hide SmallHash, StakeContent, MetaContent, Root;
    Hashes();
    Items();
    OneItem(SmallHash, [Tagged(2)]);
    OneItem(SmallHash, [Tagged(1)]);
    var b := Bundle(Meta(), [Leaf()], Some([]));
    assert [] + [b] == Data().bundles;
    EmptyTotal();
    TotalAppend([], Leaf());
    assert [] + [Leaf()] == [Leaf()];
  }

  lemma AllHashed()
    ensures Collisionless(SmallHash, Data().bundles, [SmallVote()], Strings())
  {
    hide SmallHash, StakeContent, MetaContent, LeafInput, TreeInputs, CollisionFreeOn;
    NoCollision();
    Hashes();
    Items();
    OneItem(SmallHash, [Tagged(2)]);
    OneItem(SmallHash, [Tagged(1)]);
  }

  lemma VoteIsEntitled()
    ensures Entitled(SmallHash, Election(true, 5, 6, Some(Tagged(4))), INITIAL, SmallVote())
  {
    hide SmallHash, MetaContent, LeafInput;
    Hashes();
    assert Tagged(4)[0] != Zero()[0];
    assert Verifies(SmallHash, Tagged(2), [], Tagged(4));
  }

  lemma VoteCounts()
    ensures Computable(INITIAL, SmallVote()) && Next(INITIAL, SmallVote()).totals == Tally(700, 300, 0)
  {
    hide Weigh, Tagged;
    Weighed();
  }

  lemma Weighed()
    ensures Weigh(1_000, Split(7_000, 3_000, 0)) == Tally(700, 300, 0)
  {
  }

  lemma RunOne(h: Hasher, e: Election, tx: Tx)
    ensures Run(h, e, [tx]) == Step(h, e, INITIAL, tx)
  {
    hide Step;
    assert [tx][..0] == [];
  }

  /** All assumptions hold together, the vote is accepted and 700 to 300 is published. */
  lemma SmallElection()
    ensures Valid(TreesOf(SmallHash), Data())
    ensures Collisionless(SmallHash, Data().bundles, [SmallVote()], Strings())
    ensures Run(SmallHash, Election(true, 5, 6, Some(Tagged(4))), [SmallVote()]).totals == Tally(700, 300, 0)
  {
    hide SmallHash, Valid, Collisionless, Entitled, Computable, Next, TreesOf, Strings, SmallVote, Data, Run;
    DataIsValid();
    AllHashed();
    VoteIsEntitled();
    VoteCounts();
    RunOne(SmallHash, Election(true, 5, 6, Some(Tagged(4))), SmallVote());
  }
}
