/** The on-chain vote tally of one proposal: validators vote with their whole
    delegated stake, delegators override their own part of it, both can change
    their minds, and every weight is proved against the snapshot root. */
module Voting {
  import opened Bytes
  import opened Hashing
  import opened Snapshot
  import MT = MerkleTree

  const BASIS_POINTS_MAX: nat := 10_000
  const U32_MAX: nat := 0xFFFF_FFFF

  /** Shares in basis points. */
  datatype Split = Split(yes: u64, no: u64, abstain: u64)

  /** Lamports for, against and abstaining. */
  datatype Tally = Tally(yes: nat, no: nat, abstain: nat) {
    function Plus(t: Tally): Tally { Tally(yes + t.yes, no + t.no, abstain + t.abstain) }

    predicate Covers(t: Tally) { t.yes <= yes && t.no <= no && t.abstain <= abstain }

    function Minus(t: Tally): Tally
      requires Covers(t)
    {
      Tally(yes - t.yes, no - t.no, abstain - t.abstain)
    }

    function Size(): nat { yes + no + abstain }

    predicate Fits() { yes <= U64_MAX && no <= U64_MAX && abstain <= U64_MAX }
  }

  const NOTHING: Tally := Tally(0, 0, 0)

  function Share(stake: nat, bp: nat): nat { stake * bp / BASIS_POINTS_MAX }

  /** A stake divided by a split, each part rounded down. */
  function Weigh(stake: nat, s: Split): Tally
  {
    Tally(Share(stake, s.yes), Share(stake, s.no), Share(stake, s.abstain))
  }

  predicate Whole(s: Split) { s.yes + s.no + s.abstain == BASIS_POINTS_MAX }

  /** A validator's vote; `overridden` is the delegated stake withdrawn from it. */
  datatype Vote = Vote(validator: Pubkey, split: Split, lamports: Tally, stake: u64, overridden: nat)

  datatype Override = Override(delegator: Pubkey, split: Split, lamports: Tally, stake: nat)

  /** Overrides cast before the validator voted. */
  datatype Cache = Cache(lamports: Tally, totalStake: nat)

  /** Stake account, then vote account: the seeds of the override's address. */
  type OverrideKey = (Pubkey, Pubkey)

  datatype Ledger = Ledger(totals: Tally, votes: map<Pubkey, Vote>, overrides: map<OverrideKey, Override>,
                           caches: map<Pubkey, Cache>, voteCount: nat, finalized: bool)

  /** What the handlers read from the proposal and the consensus result. */
  datatype Election = Election(voting: bool, startEpoch: nat, endEpoch: nat, root: Option<Bytes32>)

  /** The inputs every voting instruction has in common. */
  datatype Ballot = Ballot(signer: Pubkey, epoch: nat, voteAccount: Pubkey, split: Split,
                           meta: MetaLeaf, metaProof: seq<Bytes32>)

  datatype Delegated = Delegated(stakeAccount: Pubkey, leaf: StakeLeaf, stakeProof: seq<Bytes32>)

  datatype Tx =
    | CastVote(ballot: Ballot)
    | ModifyVote(ballot: Ballot)
    | CastVoteOverride(ballot: Ballot, del: Delegated)
    | ModifyVoteOverride(ballot: Ballot, del: Delegated)
    | FinalizeProposal(epoch: nat)

  // ----- who may do what

  predicate Open(e: Election, ledger: Ledger, b: Ballot)
  {
    && !ledger.finalized
    && e.startEpoch <= b.epoch < e.endEpoch
    && Whole(b.split)
    && e.root.Some? && e.root.value != Zero()
  }

  predicate MetaProved(h: Hasher, e: Election, b: Ballot)
  {
    && e.root.Some?
    && b.meta.voteAccount == b.voteAccount
    && Verifies(h, h(MetaContent(b.meta)), b.metaProof, e.root.value)
  }

  predicate ValidatorProved(h: Hasher, e: Election, b: Ballot)
  {
    b.meta.votingWallet == b.signer && b.meta.activeStake > 0 && MetaProved(h, e, b)
  }

  predicate DelegatorProved(h: Hasher, e: Election, b: Ballot, del: Delegated)
  {
    && del.leaf.votingWallet == b.signer && del.leaf.activeStake > 0 && del.leaf.stakeAccount == del.stakeAccount
    && Verifies(h, h(StakeContent(del.leaf)), del.stakeProof, b.meta.stakeRoot)
    && MetaProved(h, e, b)
  }

  /** Everything but the arithmetic. */
  predicate Entitled(h: Hasher, e: Election, ledger: Ledger, tx: Tx)
  {
    match tx
    case CastVote(b) => Open(e, ledger, b) && ValidatorProved(h, e, b) && b.voteAccount !in ledger.votes
    case ModifyVote(b) => Open(e, ledger, b) && ValidatorProved(h, e, b) && b.voteAccount in ledger.votes
    case CastVoteOverride(b, del) =>
      Open(e, ledger, b) && DelegatorProved(h, e, b, del) && (del.stakeAccount, b.voteAccount) !in ledger.overrides
    case ModifyVoteOverride(b, del) =>
      Open(e, ledger, b) && DelegatorProved(h, e, b, del) && (del.stakeAccount, b.voteAccount) in ledger.overrides
    case FinalizeProposal(epoch) => e.voting && !ledger.finalized && epoch >= e.endEpoch
  }

  // ----- what each instruction does to the ledger

  function CacheOf(ledger: Ledger, v: Pubkey): Cache
  {
    if v in ledger.caches then ledger.caches[v] else Cache(NOTHING, 0)
  }

  /** No checked subtraction fails. */
  predicate Subtractable(ledger: Ledger, tx: Tx)
  {
    match tx
    case CastVote(b) => CacheOf(ledger, b.voteAccount).totalStake <= b.meta.activeStake
    case ModifyVote(b) =>
      && b.voteAccount in ledger.votes
      && ledger.votes[b.voteAccount].overridden <= b.meta.activeStake
      && ledger.totals.Covers(ledger.votes[b.voteAccount].lamports)
    case CastVoteOverride(b, del) =>
      b.voteAccount in ledger.votes ==>
        && ledger.totals.Covers(ledger.votes[b.voteAccount].lamports)
        && ledger.votes[b.voteAccount].overridden + del.leaf.activeStake <= b.meta.activeStake
    case ModifyVoteOverride(b, del) =>
      var key := (del.stakeAccount, b.voteAccount);
      && key in ledger.overrides
      && ledger.totals.Covers(ledger.overrides[key].lamports)
      && (b.voteAccount !in ledger.votes ==>
            && b.voteAccount in ledger.caches
            && ledger.caches[b.voteAccount].lamports.Covers(ledger.overrides[key].lamports))
    case FinalizeProposal(_) => true
  }

  /** No checked addition fails, given the ledger that results. */
  predicate Addable(ledger: Ledger, tx: Tx)
    requires Subtractable(ledger, tx)
  {
    var next := Next(ledger, tx);
    match tx
    case CastVote(_) => next.totals.Fits() && next.voteCount <= U32_MAX
    case ModifyVote(_) => next.totals.Fits()
    case CastVoteOverride(b, _) =>
      && next.totals.Fits() && next.voteCount <= U32_MAX
      && (b.voteAccount !in ledger.votes && CacheOf(ledger, b.voteAccount).totalStake > 0 ==>
            CacheFits(CacheOf(next, b.voteAccount)))
    case ModifyVoteOverride(b, _) =>
      && next.totals.Fits()
      && (b.voteAccount !in ledger.votes ==> CacheOf(next, b.voteAccount).lamports.Fits())
    case FinalizeProposal(_) => true
  }

  predicate CacheFits(c: Cache) { c.lamports.Fits() && c.totalStake <= U64_MAX }

  predicate Computable(ledger: Ledger, tx: Tx)
  {
    Subtractable(ledger, tx) && Addable(ledger, tx)
  }

  function AfterCastVote(ledger: Ledger, b: Ballot): Ledger
    requires Subtractable(ledger, CastVote(b))
  {
    var cached := CacheOf(ledger, b.voteAccount).totalStake;
    var own := Weigh(b.meta.activeStake - cached, b.split);
    ledger.(totals := ledger.totals.Plus(own),
            votes := ledger.votes[b.voteAccount := Vote(b.signer, b.split, own, b.meta.activeStake, cached)],
            voteCount := ledger.voteCount + 1)
  }

  function AfterModifyVote(ledger: Ledger, b: Ballot): Ledger
    requires Subtractable(ledger, ModifyVote(b))
  {
    var vote := ledger.votes[b.voteAccount];
    var own := Weigh(b.meta.activeStake - vote.overridden, b.split);
    ledger.(totals := ledger.totals.Minus(vote.lamports).Plus(own),
            votes := ledger.votes[b.voteAccount := vote.(split := b.split, lamports := own)])
  }

  /** The override is counted by itself; a vote already cast shrinks by the same
      stake, and a vote still to come will. */
  function AfterCastVoteOverride(ledger: Ledger, b: Ballot, del: Delegated): Ledger
    requires Subtractable(ledger, CastVoteOverride(b, del))
  {
    var v, stake := b.voteAccount, del.leaf.activeStake;
    var own := Weigh(stake, b.split);
    var next := ledger.(overrides := ledger.overrides[(del.stakeAccount, v) := Override(b.signer, b.split, own, stake)],
                        voteCount := ledger.voteCount + 1);
    if v in ledger.votes then
      var vote := ledger.votes[v];
      var rest := Weigh(b.meta.activeStake - vote.overridden - stake, vote.split);
      next.(totals := ledger.totals.Minus(vote.lamports).Plus(own).Plus(rest),
            votes := ledger.votes[v := vote.(lamports := rest, overridden := vote.overridden + stake)],
            caches := ledger.caches[v := CacheOf(ledger, v)])
    else
      var cache := CacheOf(ledger, v);
      next.(totals := ledger.totals.Plus(own),
            caches := ledger.caches[v := if cache.totalStake == 0 then Cache(own, stake)
                                         else Cache(cache.lamports.Plus(own), cache.totalStake + stake)])
  }

  function AfterModifyVoteOverride(ledger: Ledger, b: Ballot, del: Delegated): Ledger
    requires Subtractable(ledger, ModifyVoteOverride(b, del))
  {
    var v := b.voteAccount;
    var prior := ledger.overrides[(del.stakeAccount, v)];
    var own := Weigh(del.leaf.activeStake, b.split);
    ledger.(totals := ledger.totals.Minus(prior.lamports).Plus(own),
            overrides := ledger.overrides[(del.stakeAccount, v) := prior.(split := b.split, lamports := own)],
            caches := if v in ledger.votes then ledger.caches
                      else ledger.caches[v := ledger.caches[v].(
                             lamports := ledger.caches[v].lamports.Minus(prior.lamports).Plus(own))])
  }

  /** The ledger if the transaction goes through. */
  function Next(ledger: Ledger, tx: Tx): Ledger
    requires Subtractable(ledger, tx)
  {
    match tx
    case CastVote(b) => AfterCastVote(ledger, b)
    case ModifyVote(b) => AfterModifyVote(ledger, b)
    case CastVoteOverride(b, del) => AfterCastVoteOverride(ledger, b, del)
    case ModifyVoteOverride(b, del) => AfterModifyVoteOverride(ledger, b, del)
    case FinalizeProposal(_) => ledger.(finalized := true)
  }

  predicate Accepts(h: Hasher, e: Election, ledger: Ledger, tx: Tx)
  {
    Entitled(h, e, ledger, tx) && Computable(ledger, tx)
  }

  /** A transaction takes effect in full or not at all. */
  function Step(h: Hasher, e: Election, ledger: Ledger, tx: Tx): Ledger
  {
    if Accepts(h, e, ledger, tx) then Next(ledger, tx) else ledger
  }

  const INITIAL: Ledger := Ledger(NOTHING, map[], map[], map[], 0, false)

  /** What an override does to a vote already cast, and when it can be computed. */
  lemma OverrideOfVote(ledger: Ledger, b: Ballot, del: Delegated)
    requires b.voteAccount in ledger.votes && ledger.voteCount < U32_MAX
    ensures var vote, stake := ledger.votes[b.voteAccount], del.leaf.activeStake;
            var tx, total := CastVoteOverride(b, del), stake + vote.overridden;
            if !ledger.totals.Covers(vote.lamports) || total > b.meta.activeStake then !Computable(ledger, tx)
            else
              var own, rest := Weigh(stake, b.split), Weigh(b.meta.activeStake - total, vote.split);
              var next, totals := AfterCastVoteOverride(ledger, b, del),
                  ledger.totals.Minus(vote.lamports).Plus(own).Plus(rest);
              && (Computable(ledger, tx) <==> totals.Fits())
              && next.totals == totals
              && next.votes
                 == ledger.votes[b.voteAccount := vote.(lamports := rest, overridden := vote.overridden + stake)]
              && next.caches == ledger.caches[b.voteAccount := CacheOf(ledger, b.voteAccount)]
  {
    hide Weigh;
    var vote := ledger.votes[b.voteAccount];
    assert vote.overridden + del.leaf.activeStake == del.leaf.activeStake + vote.overridden;
    if ledger.totals.Covers(vote.lamports) && del.leaf.activeStake + vote.overridden <= b.meta.activeStake {
      assert b.meta.activeStake - vote.overridden - del.leaf.activeStake
             == b.meta.activeStake - (del.leaf.activeStake + vote.overridden);
    }
  }

  /** When a first vote can be computed, and what it leads to. */
  lemma VoteComputed(ledger: Ledger, b: Ballot)
    ensures var cached, tx := CacheOf(ledger, b.voteAccount).totalStake, CastVote(b);
            if cached > b.meta.activeStake then !Computable(ledger, tx)
            else
              var own := Weigh(b.meta.activeStake - cached, b.split);
              && (Computable(ledger, tx) <==> ledger.totals.Plus(own).Fits() && ledger.voteCount < U32_MAX)
              && Next(ledger, tx)
                 == ledger.(totals := ledger.totals.Plus(own), voteCount := ledger.voteCount + 1,
                            votes := ledger.votes[b.voteAccount :=
                                       Vote(b.signer, b.split, own, b.meta.activeStake, cached)])
  {
    hide Weigh;
  }

  /** When a changed vote can be computed, and what it leads to. */
  lemma ChangeComputed(ledger: Ledger, b: Ballot)
    requires b.voteAccount in ledger.votes
    ensures var vote, tx := ledger.votes[b.voteAccount], ModifyVote(b);
            if !ledger.totals.Covers(vote.lamports) || vote.overridden > b.meta.activeStake
            then !Computable(ledger, tx)
            else
              var own := Weigh(b.meta.activeStake - vote.overridden, b.split);
              var totals := ledger.totals.Minus(vote.lamports).Plus(own);
              && (Computable(ledger, tx) <==> totals.Fits())
              && Next(ledger, tx)
                 == ledger.(totals := totals,
                            votes := ledger.votes[b.voteAccount := vote.(split := b.split, lamports := own)])
  {
    hide Weigh;
  }

  // ----- the handlers

  /** `add_vote_lamports`, `sub_vote_lamports`: checked, component by component. */
  function CheckedAdd(a: Tally, b: Tally): Option<Tally>
  {
    if a.Plus(b).Fits() then Some(a.Plus(b)) else None
  }

  function CheckedSub(a: Tally, b: Tally): Option<Tally>
  {
    if a.Covers(b) then Some(a.Minus(b)) else None
  }

  class ProposalAccounts {
    var totals: Tally
    var votes: map<Pubkey, Vote>
    var overrides: map<OverrideKey, Override>
    var caches: map<Pubkey, Cache>
    var voteCount: nat
    var finalized: bool

    constructor ()
      ensures Contents() == INITIAL
    {
      totals, votes, overrides, caches, voteCount, finalized := NOTHING, map[], map[], map[], 0, false;
    }

    function Contents(): Ledger
      reads this
    {
      Ledger(totals, votes, overrides, caches, voteCount, finalized)
    }

    /** The checks every voting handler begins with. */
    method RequireOpen(e: Election, b: Ballot) returns (ok: bool)
      ensures ok <==> Open(e, Contents(), b)
      ensures ok ==> e.root.Some?
    {
      if finalized || e.startEpoch > b.epoch || b.epoch >= e.endEpoch {
        return false;
      }
      if b.split.yes + b.split.no > U64_MAX || b.split.yes + b.split.no + b.split.abstain > U64_MAX
         || b.split.yes + b.split.no + b.split.abstain != BASIS_POINTS_MAX {
        return false;
      }
      return e.root.Some? && e.root.value != Zero();
    }

    /** The call into the snapshot program; a delegator also proves the stake leaf. */
    method VerifyMerkleProof(h: Hasher, e: Election, b: Ballot, del: Option<Delegated>) returns (ok: bool)
      requires e.root.Some?
      ensures ok <==> (del.Some? ==>
                         Verifies(h, h(StakeContent(del.value.leaf)), del.value.stakeProof, b.meta.stakeRoot))
                      && Verifies(h, h(MetaContent(b.meta)), b.metaProof, e.root.value)
    {
      hide Verifies;
      if del.Some? {
        ok := MT.VerifyHelper(h, h(StakeContent(del.value.leaf)), del.value.stakeProof, b.meta.stakeRoot);
        if !ok {
          return;
        }
      }
      ok := MT.VerifyHelper(h, h(MetaContent(b.meta)), b.metaProof, e.root.value);
    }

    method CastVote(h: Hasher, e: Election, b: Ballot) returns (ok: bool)
      modifies this
      ensures ok <==> Accepts(h, e, old(Contents()), Tx.CastVote(b))
      ensures Contents() == Step(h, e, old(Contents()), Tx.CastVote(b))
    {
      hide Open, Verifies, Computable, Next;
      if b.voteAccount in votes {
        return false;
      }
      ok := RequireOpen(e, b);
      if !ok || b.meta.votingWallet != b.signer || b.meta.activeStake == 0 || b.meta.voteAccount != b.voteAccount {
        return false;
      }
      ok := VerifyMerkleProof(h, e, b, None);
      if !ok {
        return;
      }
      ok := CountVote(b);
    }

    /** The part of `cast_vote` after the checks. */
    method CountVote(b: Ballot) returns (ok: bool)
      modifies this`totals, this`votes, this`voteCount
      ensures ok <==> Computable(old(Contents()), Tx.CastVote(b))
      ensures ok ==> Contents() == Next(old(Contents()), Tx.CastVote(b))
      ensures !ok ==> Contents() == old(Contents())
    {
      hide Weigh, Computable, Next;
      VoteComputed(Contents(), b);
      var voterStake: nat := b.meta.activeStake;
      var overridden := 0;
      if b.voteAccount in caches {
        var cached := caches[b.voteAccount].totalStake;
        if cached > voterStake {
          return false;
        }
        voterStake, overridden := voterStake - cached, cached;
      }
      var own := Weigh(voterStake, b.split);
      var added := CheckedAdd(totals, own);
      if added.None? || voteCount >= U32_MAX {
        return false;
      }
      totals, voteCount := added.value, voteCount + 1;
      votes := votes[b.voteAccount := Vote(b.signer, b.split, own, b.meta.activeStake, overridden)];
      return true;
    }

    method ModifyVote(h: Hasher, e: Election, b: Ballot) returns (ok: bool)
      modifies this
      ensures ok <==> Accepts(h, e, old(Contents()), Tx.ModifyVote(b))
      ensures Contents() == Step(h, e, old(Contents()), Tx.ModifyVote(b))
    {
      hide Open, Verifies, Weigh, Computable, Next;
      if b.voteAccount !in votes {
        return false;
      }
      ChangeComputed(Contents(), b);
      ok := RequireOpen(e, b);
      if !ok || b.meta.votingWallet != b.signer || b.meta.voteAccount != b.voteAccount || b.meta.activeStake == 0 {
        return false;
      }
      ok := VerifyMerkleProof(h, e, b, None);
      if !ok {
        return;
      }
      var vote := votes[b.voteAccount];
      var without := CheckedSub(totals, vote.lamports);
      if without.None? || b.meta.activeStake < vote.overridden {
        return false;
      }
      var own := Weigh(b.meta.activeStake - vote.overridden, b.split);
      var added := CheckedAdd(without.value, own);
      if added.None? {
        return false;
      }
      totals := added.value;
      votes := votes[b.voteAccount := vote.(split := b.split, lamports := own)];
    }

    /** The part of `cast_vote_override` for a validator that has voted. */
    method OverrideVote(b: Ballot, del: Delegated) returns (ok: bool)
      requires b.voteAccount in votes
      modifies this`totals, this`votes, this`caches
      ensures !ok ==> Contents() == old(Contents())
      ensures old(voteCount) < U32_MAX ==> (ok <==> Computable(old(Contents()), Tx.CastVoteOverride(b, del)))
      ensures old(voteCount) < U32_MAX && ok ==>
                var next := AfterCastVoteOverride(old(Contents()), b, del);
                totals == next.totals && votes == next.votes && caches == next.caches
    {
      hide Weigh, Computable, AfterCastVoteOverride;
      if voteCount < U32_MAX {
        OverrideOfVote(Contents(), b, del);
      }
      var vote := votes[b.voteAccount];
      var own := Weigh(del.leaf.activeStake, b.split);
      var without := CheckedSub(totals, vote.lamports);
      if without.None? {
        return false;
      }
      var withOwn := CheckedAdd(without.value, own);
      if withOwn.None? {
        return false;
      }
      var totalOverridden := del.leaf.activeStake + vote.overridden;
      if totalOverridden > b.meta.activeStake {
        return false;
      }
      var rest := Weigh(b.meta.activeStake - totalOverridden, vote.split);
      var all := CheckedAdd(withOwn.value, rest);
      if all.None? {
        return false;
      }
      totals := all.value;
      votes := votes[b.voteAccount := vote.(lamports := rest, overridden := vote.overridden + del.leaf.activeStake)];
      caches := caches[b.voteAccount := if b.voteAccount in caches then caches[b.voteAccount] else Cache(NOTHING, 0)];
      return true;
    }

    /** The part for a validator that has not. */
    method OverrideAhead(b: Ballot, del: Delegated) returns (ok: bool)
      requires b.voteAccount !in votes
      modifies this`totals, this`caches
      ensures !ok ==> Contents() == old(Contents())
      ensures old(voteCount) < U32_MAX ==> (ok <==> Computable(old(Contents()), Tx.CastVoteOverride(b, del)))
      ensures old(voteCount) < U32_MAX && ok ==>
                var next := AfterCastVoteOverride(old(Contents()), b, del);
                totals == next.totals && caches == next.caches
    {
      hide Weigh;
      var own := Weigh(del.leaf.activeStake, b.split);
      var added := CheckedAdd(totals, own);
      if added.None? {
        return false;
      }
      var cache := if b.voteAccount in caches then caches[b.voteAccount] else Cache(NOTHING, 0);
      if cache.totalStake == 0 {
        cache := Cache(own, del.leaf.activeStake);
      } else {
        var lamports := CheckedAdd(cache.lamports, own);
        if lamports.None? || cache.totalStake + del.leaf.activeStake > U64_MAX {
          return false;
        }
        cache := Cache(lamports.value, cache.totalStake + del.leaf.activeStake);
      }
      totals := added.value;
      caches := caches[b.voteAccount := cache];
      return true;
    }

    method CastVoteOverride(h: Hasher, e: Election, b: Ballot, del: Delegated) returns (ok: bool)
      modifies this
      ensures ok <==> Accepts(h, e, old(Contents()), Tx.CastVoteOverride(b, del))
      ensures Contents() == Step(h, e, old(Contents()), Tx.CastVoteOverride(b, del))
    {
      hide Open, Verifies, Weigh;
      var key := (del.stakeAccount, b.voteAccount);
      if key in overrides {
        return false;
      }
      ok := RequireOpen(e, b);
      if !ok || del.leaf.votingWallet != b.signer || del.leaf.activeStake == 0
         || del.leaf.stakeAccount != del.stakeAccount || b.meta.voteAccount != b.voteAccount {
        return false;
      }
      ok := VerifyMerkleProof(h, e, b, Some(del));
      if !ok || voteCount >= U32_MAX {
        return false;
      }
      if b.voteAccount in votes {
        ok := OverrideVote(b, del);
      } else {
        ok := OverrideAhead(b, del);
      }
      if !ok {
        return;
      }
      var own := Weigh(del.leaf.activeStake, b.split);
      overrides := overrides[key := Override(b.signer, b.split, own, del.leaf.activeStake)];
      voteCount := voteCount + 1;
    }

    method ModifyVoteOverride(h: Hasher, e: Election, b: Ballot, del: Delegated) returns (ok: bool)
      modifies this
      ensures ok <==> Accepts(h, e, old(Contents()), Tx.ModifyVoteOverride(b, del))
      ensures Contents() == Step(h, e, old(Contents()), Tx.ModifyVoteOverride(b, del))
    {
      hide Open, Verifies, Weigh;
      var key := (del.stakeAccount, b.voteAccount);
      if key !in overrides {
        return false;
      }
      ok := RequireOpen(e, b);
      if !ok || del.leaf.votingWallet != b.signer || del.leaf.activeStake == 0
         || del.leaf.stakeAccount != del.stakeAccount || b.meta.voteAccount != b.voteAccount {
        return false;
      }
      ok := VerifyMerkleProof(h, e, b, Some(del));
      if !ok {
        return;
      }
      var prior := overrides[key];
      var own := Weigh(del.leaf.activeStake, b.split);
      var without := CheckedSub(totals, prior.lamports);
      if without.None? {
        return false;
      }
      var added := CheckedAdd(without.value, own);
      if added.None? {
        return false;
      }
      if b.voteAccount !in votes {
        if b.voteAccount !in caches {
          return false;
        }
        var cache := caches[b.voteAccount];
        var less := CheckedSub(cache.lamports, prior.lamports);
        if less.None? {
          return false;
        }
        var more := CheckedAdd(less.value, own);
        if more.None? {
          return false;
        }
        caches := caches[b.voteAccount := cache.(lamports := more.value)];
      }
      totals := added.value;
      overrides := overrides[key := prior.(split := b.split, lamports := own)];
    }

    method FinalizeProposal(h: Hasher, e: Election, epoch: nat) returns (ok: bool)
      modifies this`finalized
      ensures ok <==> Accepts(h, e, old(Contents()), Tx.FinalizeProposal(epoch))
      ensures Contents() == Step(h, e, old(Contents()), Tx.FinalizeProposal(epoch))
    {
      if !e.voting || finalized || epoch < e.endEpoch {
        return false;
      }
      finalized := true;
      return true;
    }
  }
}
