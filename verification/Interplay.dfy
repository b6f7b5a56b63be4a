/** The proposal, the ballot boxes and the votes side by side: the window and the
    root that the votes are checked against are read from the other two, and no
    vote is ever counted against one that later changes. */
module Interplay {
  import opened Bytes
  import opened Hashing
  import opened Voting
  import opened VotingTheorems
  import L = Lifecycle
  import BB = BallotBox
  import BL = BallotBoxLaws

  datatype Happening =
    | OnProposal(event: L.Event)
    | OnBox(slot: nat, ballotEvent: BB.Event)
    | OnVote(tx: Tx)

  /** `logs` are the events of each ballot box, by snapshot slot; `counted` the
      transactions that were accepted. */
  datatype World = World(chain: L.Chain, logs: map<nat, seq<BB.Event>>, ledger: Ledger, counted: seq<Tx>)

  /** What stays the same: the phase lengths, and the terms of each box. */
  datatype Rules = Rules(h: Hasher, config: L.Config, terms: nat -> BB.Terms)

  function LogOf(w: World, slot: nat): seq<BB.Event> { if slot in w.logs then w.logs[slot] else [] }

  function BoxOf(rules: Rules, w: World, slot: nat): BB.Box { BB.Run(rules.terms(slot), LogOf(w, slot)) }

  /** What the voting handlers see at this moment. */
  function ElectionOf(rules: Rules, w: World): Election
  {
    var p := w.chain.proposal;
    var result := BoxOf(rules, w, p.snapshotSlot).result;
    Election(p.voting, p.startEpoch, p.endEpoch,
             if p.consensusResult && result.Some? then Some(result.value.0.metaMerkleRoot) else None)
  }

  /** The transaction with the epoch of the clock. */
  function Stamped(tx: Tx, epoch: nat): Tx
  {
    match tx
    case CastVote(b) => CastVote(b.(epoch := epoch))
    case ModifyVote(b) => ModifyVote(b.(epoch := epoch))
    case CastVoteOverride(b, del) => CastVoteOverride(b.(epoch := epoch), del)
    case ModifyVoteOverride(b, del) => ModifyVoteOverride(b.(epoch := epoch), del)
    case FinalizeProposal(_) => FinalizeProposal(epoch)
  }

  /** Finalization is a transaction; everything else about the proposal is not. */
  function Happen(rules: Rules, w: World, x: Happening): World
  {
    match x
    case OnProposal(e) =>
      if e.FinalizeProposal? then w else w.(chain := L.Step(rules.config, w.chain, e))
    case OnBox(slot, e) => w.(logs := w.logs[slot := LogOf(w, slot) + [e]])
    case OnVote(tx) =>
      var now := Stamped(tx, w.chain.epoch);
      if !Accepts(rules.h, ElectionOf(rules, w), w.ledger, now) then w
      else w.(ledger := Next(w.ledger, now), counted := w.counted + [now],
              chain := if tx.FinalizeProposal? then L.Step(rules.config, w.chain, L.FinalizeProposal) else w.chain)
  }

  function Begin(epoch: nat): World { World(L.Created(epoch), map[], INITIAL, []) }

  function Unfold(rules: Rules, epoch: nat, xs: seq<Happening>): World
  {
    if xs == [] then Begin(epoch) else Happen(rules, Unfold(rules, epoch, xs[..|xs| - 1]), xs[|xs| - 1])
  }

  // ----- the election settles before the first vote counts

  predicate OnlyFinalize(txs: seq<Tx>) { forall i :: 0 <= i < |txs| ==> txs[i].FinalizeProposal? }

  ghost predicate Settled(rules: Rules, w: World)
  {
    && L.Scheduled(w.chain)
    && w.ledger.finalized == w.chain.proposal.finalized
    && (w.counted != [] ==> L.Begun(w.chain))
    && (ElectionOf(rules, w).root.None? ==> OnlyFinalize(w.counted))
    && w.ledger == Run(rules.h, ElectionOf(rules, w), w.counted)
  }

  /** Finalization alone does not depend on the root. */
  lemma {:induction false} RootIrrelevant(h: Hasher, e: Election, root: Option<Bytes32>, txs: seq<Tx>)
    requires OnlyFinalize(txs)
    ensures Run(h, e.(root := root), txs) == Run(h, e, txs)
    ensures Run(h, e, txs).totals == NOTHING
  {
    if txs != [] {
      RootIrrelevant(h, e, root, txs[..|txs| - 1]);
    }
  }

  lemma RunAppend(h: Hasher, e: Election, txs: seq<Tx>, tx: Tx)
    ensures Run(h, e, txs + [tx]) == Step(h, e, Run(h, e, txs), tx)
  {
    hide Step;
    assert (txs + [tx])[..|txs|] == txs;
  }

  lemma ProposalKeepsSettled(rules: Rules, w: World, e: L.Event)
    requires Settled(rules, w)
    ensures Settled(rules, Happen(rules, w, OnProposal(e)))
  {
    hide Run, BB.Run, OnlyFinalize;
    L.StepScheduled(rules.config, w.chain, e);
    var next := Happen(rules, w, OnProposal(e));
    if w.counted == [] {
      NothingCounted(rules.h, ElectionOf(rules, w), ElectionOf(rules, next));
    } else {
    }
  }

  lemma NothingCounted(h: Hasher, e: Election, e': Election)
    ensures Run(h, e, []) == Run(h, e', []) && OnlyFinalize([])
  {
  }

  /** A result is written once, so a root that is there stays. */
  lemma BoxKeepsSettled(rules: Rules, w: World, slot: nat, e: BB.Event)
    requires Settled(rules, w)
    ensures Settled(rules, Happen(rules, w, OnBox(slot, e)))
  {
    hide Run, BB.Run, OnlyFinalize, L.Scheduled, L.Begun;
    var next := Happen(rules, w, OnBox(slot, e));
    var now := w.chain.proposal.snapshotSlot;
    if slot == now {
      ResultStays(rules.terms(slot), LogOf(w, slot), e);
    }
    var before, after := ElectionOf(rules, w), ElectionOf(rules, next);
    assert after == before.(root := after.root);
    if before.root.None? {
      RootIrrelevant(rules.h, before, after.root, w.counted);
    }
  }

  lemma ResultStays(terms: BB.Terms, log: seq<BB.Event>, e: BB.Event)
    ensures BB.Run(terms, log).result.Some? ==> BB.Run(terms, log + [e]).result == BB.Run(terms, log).result
  {
    hide BB.Run, BL.Invariant;
    BL.EveryRunKeeps(terms, log);
    if BB.Run(terms, log).result.Some? {
      DecidedIfWritten(terms, BB.Run(terms, log));
      BL.ConsensusIsFinal(terms, log, [e]);
    }
  }

  lemma DecidedIfWritten(terms: BB.Terms, box: BB.Box)
    requires BL.Invariant(terms, box) && box.result.Some?
    ensures box.consensusSlot != 0
  {
  }

  /** A vote is only accepted in its window, against a root that is there. */
  lemma AcceptedWhen(h: Hasher, e: Election, ledger: Ledger, tx: Tx)
    requires Accepts(h, e, ledger, tx)
    ensures Subtractable(ledger, tx) && Step(h, e, ledger, tx) == Next(ledger, tx)
    ensures Next(ledger, tx).finalized == (ledger.finalized || tx.FinalizeProposal?)
    ensures if tx.FinalizeProposal? then e.voting && e.endEpoch <= tx.epoch && !ledger.finalized
            else e.startEpoch <= tx.ballot.epoch < e.endEpoch && e.root.Some?
  {
    hide Addable, MetaProved, Whole, Weigh, Verifies;
  }

  lemma VoteKeepsSettled(rules: Rules, w: World, tx: Tx)
    requires Settled(rules, w)
    ensures Settled(rules, Happen(rules, w, OnVote(tx)))
  {
    hide Run, BB.Run, Accepts, Next, Step, Subtractable;
    var now, e := Stamped(tx, w.chain.epoch), ElectionOf(rules, w);
    if Accepts(rules.h, e, w.ledger, now) {
      AcceptedWhen(rules.h, e, w.ledger, now);
      RunAppend(rules.h, e, w.counted, now);
      L.StepScheduled(rules.config, w.chain, L.FinalizeProposal);
    }
  }

  /** Whatever happens, in whatever order: what the votes came to is what they
      come to under the one election that holds at the end. */
  lemma {:induction false} OneElection(rules: Rules, epoch: nat, xs: seq<Happening>)
    ensures Settled(rules, Unfold(rules, epoch, xs))
  {
    hide Happen, Settled;
    if xs == [] {
      BeginSettled(rules, epoch);
    } else {
      var n := |xs| - 1;
      OneElection(rules, epoch, xs[..n]);
      var w := Unfold(rules, epoch, xs[..n]);
      match xs[n]
      case OnProposal(e) => ProposalKeepsSettled(rules, w, e);
      case OnBox(slot, e) => BoxKeepsSettled(rules, w, slot, e);
      case OnVote(tx) => VoteKeepsSettled(rules, w, tx);
    }
  }

  lemma BeginSettled(rules: Rules, epoch: nat)
    ensures Settled(rules, Begin(epoch))
  {
    hide BB.Run;
  }
}
