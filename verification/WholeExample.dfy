/** The assumptions of the whole-system theorem can be met: one stake account is
    scanned, one operator agrees with itself, one vote is cast and counted. */
module WholeExample {
  import opened Bytes
  import opened TreeShape
  import opened Hashing
  import opened Sorting
  import opened Filtering
  import opened Snapshot
  import opened Generate
  import opened Voting
  import opened VotingTheorems
  import opened VotingExample
  import opened Interplay
  import opened WholeSystem
  import L = Lifecycle
  import BB = BallotBox
  import BL = BallotBoxLaws
  import BA = BallotBoxAdmission

  function Account(): ScannedAccount
  {
    ScannedAccount(Tagged(11), Some(StakeState(Tagged(13), Tagged(10), Tagged(10), 1_000)))
  }

  function OneBank(): Bank { Bank(map[], (v: Snapshot.Pubkey) => Some(Tagged(12)), 7) }

  function FileHash(data: SnapshotData): Bytes32 { Tagged(9) }

  function Terms(): BB.Terms { BB.Terms([Tagged(20)], 6_000, 100, 7) }

  function SmallRules(): Rules { Rules(SmallHash, L.Config(0, 0, 0, 1), (slot: nat) => Terms()) }

  function Right(): BB.Ballot { BB.Ballot(Tagged(4), Tagged(9)) }

  function Log(): seq<BB.Event> { [BB.CastVote(Tagged(20), Right(), 8, 0), BB.FinalizeBallot] }

  function Story(): seq<Happening>
  {
    [OnProposal(L.Support(1, 1, 7)), OnBox(7, Log()[0]), OnBox(7, Log()[1]), OnProposal(L.Tick), OnVote(SmallVote())]
  }

  // ----- generation

  lemma GeneratedLeaves()
    ensures Voters([Account()]) == {Tagged(13)}
    ensures LeavesOf(OneBank(), [Account()], Tagged(13)) == [Leaf()]
    ensures TotalStake([Leaf()]) == 1_000
    ensures DistinctKeys(AccountKey, [Account()]) && TotalsFit(OneBank(), [Account()])
  {
    assert [] + [Account()] == [Account()];
    assert DelegationsTo([Account()], Tagged(13)) == [DelegationOf(Account())];
    assert LeavesOf(OneBank(), [Account()], Tagged(13))[0] == LeafOf(map[])(DelegationOf(Account()));
    SumMapAppend(StakeAmount, [], Leaf());
    assert [] + [Leaf()] == [Leaf()];
  }

  lemma GeneratedBundle()
    ensures BundleFor(TreesOf(SmallHash), OneBank(), [Account()])(Tagged(13)) == Bundle(Meta(), [Leaf()], None)
  {
    hide SmallHash, StakeContent, Root, LeavesOf, TotalStake;
    GeneratedLeaves();
    Hashes();
    Items();
    OneItem(SmallHash, [Tagged(1)]);
    assert SortByKey(StakeKey, [Leaf()]) == [Leaf()];
  }

  lemma OneSorted(k: Bytes32)
    ensures SortedSet({k}) == [k]
  {
    SortedSetEnumerates({k});
    assert SortedSet({k})[0] in SortedSet({k});
  }

  lemma NoSiblings(trees: Trees, raw: seq<Bundle>)
    requires trees == TreesOf(SmallHash) && raw == [Bundle(Meta(), [Leaf()], None)]
    ensures WithProofs(trees, raw) == Data().bundles
  {
    hide SmallHash, MetaContent;
    assert |MetaItems(SmallHash, Metas(raw))| == 1 && Height(1) == 0;
    assert |trees.metaProof((Metas(raw), 0))| == 0;
    assert WithProofs(trees, raw)[0] == WithProof(trees, raw, 0);
  }

  lemma RootOfData()
    ensures TreesOf(SmallHash).metaRoot(Metas(Data().bundles)) == Tagged(4)
  {
    hide SmallHash, MetaContent, Root;
    Hashes();
    Items();
    OneItem(SmallHash, [Tagged(2)]);
  }

  /** What is generated is the snapshot of the small election. */
  lemma GeneratedIsData()
    ensures GeneratedData(SmallHash, OneBank(), [Account()]) == Data()
  {
    hide SmallHash, BundleFor, Voters, TreesOf, WithProofs, SortedSet, Meta, Leaf;
    GeneratedLeaves();
    GeneratedBundle();
    OneSorted(Tagged(13));
    var raw := Map(BundleFor(TreesOf(SmallHash), OneBank(), [Account()]), [Tagged(13)]);
    assert raw == [Bundle(Meta(), [Leaf()], None)];
    NoSiblings(TreesOf(SmallHash), raw);
    RootOfData();
  }

  // ----- agreement

  /** The box after the one vote. */
  function Decided(): BB.Box
  {
    BB.Box([BB.OperatorVote(Tagged(20), 8, 0)], [BB.BallotTally(0, Right(), 1)], 8, Right(), false, None)
  }

  lemma NothingRun()
    ensures BB.Run(Terms(), []) == BB.Opened()
  {
  }

  lemma Quorum()
    ensures BB.Reaches(Terms(), 1)
  {
  }

  lemma FirstVote()
    ensures BB.Step(Terms(), BB.Opened(), BB.CastVote(Tagged(20), Right(), 8, 0)) == Decided()
  {
    hide FirstIndex, BB.Reaches;
    Quorum();
    assert Tagged(4)[0] != Zero()[0];
  }

  lemma Written()
    ensures BB.Step(Terms(), Decided(), BB.FinalizeBallot).result == Some((Right(), false))
  {
    hide Tagged;
  }

  lemma Agreed()
    ensures BB.Run(Terms(), Log()).result == Some((Right(), false))
  {
    hide BB.Step, BB.Run, Right, Terms;
    var cast := Log()[0];
    NothingRun();
    FirstVote();
    Written();
    BA.RunAppend(Terms(), [], cast);
    BA.RunAppend(Terms(), [cast], BB.FinalizeBallot);
    assert [] + [cast] == [cast] && [cast] + [BB.FinalizeBallot] == Log();
  }

  lemma Honest(w: World)
    requires LogOf(w, 7) == Log()
    ensures ByVoteOfHonest(SmallRules(), w, 7, {Tagged(20)}, FileHash, OneBank(), [Account()])
  {
    hide BB.Run, SmallHash, GeneratedData, BB.Reaches;
    Agreed();
    GeneratedIsData();
    assert BallotFor(SmallHash, FileHash, OneBank(), [Account()]) == Right();
    assert BL.Voters(Terms()) - {Tagged(20)} == {};
    NobodyElse();
  }

  lemma NobodyElse()
    ensures !BB.Reaches(Terms(), 0)
  {
  }

  // ----- the story

  lemma UnfoldAppend(rules: Rules, epoch: nat, xs: seq<Happening>, x: Happening)
    ensures Unfold(rules, epoch, xs + [x]) == Happen(rules, Unfold(rules, epoch, xs), x)
  {
    hide Happen;
    assert (xs + [x])[..|xs|] == xs;
  }

  /** Before the vote: scheduled for epoch 5, and the result written. */
  function Ready(): World
  {
    World(L.Chain(L.Proposal(4, 5, 6, 7, 1, true, false, true), 5), map[7 := Log()], INITIAL, [])
  }

  lemma BeginUnfolded()
    ensures Unfold(SmallRules(), 4, []) == Begin(4)
  {
  }

  lemma BeforeTheVote()
    ensures Unfold(SmallRules(), 4, Story()[..4]) == Ready()
  {
    hide BB.Run, SmallVote, SmallHash, Log, Unfold;
    BeginUnfolded();
    var rules, xs := SmallRules(), Story();
    UnfoldAppend(rules, 4, [], xs[0]);
    UnfoldAppend(rules, 4, xs[..1], xs[1]);
    UnfoldAppend(rules, 4, xs[..2], xs[2]);
    UnfoldAppend(rules, 4, xs[..3], xs[3]);
    assert [] + [xs[0]] == xs[..1] && xs[..1] + [xs[1]] == xs[..2];
    assert xs[..2] + [xs[2]] == xs[..3] && xs[..3] + [xs[3]] == xs[..4];
    Scheduled();
    Logged();
  }

  lemma Scheduled()
    ensures Happen(SmallRules(), Begin(4), OnProposal(L.Support(1, 1, 7)))
            == World(Ready().chain.(epoch := 4), map[], INITIAL, [])
  {
  }

  lemma Logged()
    ensures var w := World(Ready().chain.(epoch := 4), map[], INITIAL, []);
            var x := Happen(SmallRules(), w, OnBox(7, Log()[0]));
            Happen(SmallRules(), x, OnBox(7, Log()[1])) == Ready().(chain := w.chain)
  {
    assert [] + [Log()[0]] == [Log()[0]] && [Log()[0]] + [Log()[1]] == Log();
  }

  /** The whole story: all assumptions hold, and 700 to 300 is published. */
  lemma SmallStory()
    ensures var w := Unfold(SmallRules(), 4, Story());
            && DistinctKeys(AccountKey, [Account()]) && TotalsFit(OneBank(), [Account()]) && Voters([Account()]) != {}
            && ByVoteOfHonest(SmallRules(), w, w.chain.proposal.snapshotSlot, {Tagged(20)}, FileHash, OneBank(),
                              [Account()])
            && Collisionless(SmallHash, BundlesOf(TreesOf(SmallHash), OneBank(), [Account()]), w.counted, Strings())
            && w.ledger.totals == Tally(700, 300, 0)
  {
    hide BB.Run, SmallHash, Unfold, Entitled, Computable, Next, Collisionless, ByVoteOfHonest, TotalsFit, Voters,
         BundlesOf, TreesOf, Strings, DistinctKeys;
    GeneratedLeaves();
    GeneratedIsData();
    BeforeTheVote();
    UnfoldAppend(SmallRules(), 4, Story()[..4], Story()[4]);
    assert Story()[..4] + [Story()[4]] == Story();
    Agreed();
    VoteIsEntitled();
    VoteCounts();
    AllHashed();
    var w := Happen(SmallRules(), Ready(), OnVote(SmallVote()));
    assert ElectionOf(SmallRules(), Ready()) == Election(true, 5, 6, Some(Tagged(4)));
    assert w.counted == [SmallVote()];
    Honest(w);
  }
}
