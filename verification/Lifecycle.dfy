/** The status a proposal is shown with, as a function of its account and the
    epoch, over every run of the on-chain lifecycle. */
module Lifecycle {

  /** Phase lengths, from the on-chain configuration. */
  datatype Config = Config(supportEpochs: nat, discussionEpochs: nat, snapshotEpochs: nat, votingEpochs: nat)

  /** `snapshotSlot` names the ballot box and, with it, the consensus result. */
  datatype Proposal = Proposal(creationEpoch: nat, startEpoch: nat, endEpoch: nat, snapshotSlot: nat,
                               clusterSupport: nat, consensusResult: bool, finalized: bool, voting: bool)

  datatype Status = Supporting | Discussion | Voting | Failed | Finalized

  function Rank(s: Status): nat
  {
    match s
    case Supporting => 0
    case Discussion => 1
    case Voting => 2
    case Failed => 3
    case Finalized => 3
  }

  datatype PhaseEpochs = PhaseEpochs(supportStart: nat, supportEnd: nat, discussionStart: nat, discussionEnd: nat,
                                     snapshot: nat)

  function GetProposalPhaseEpochs(creationEpoch: nat, config: Config): PhaseEpochs
  {
    var supportEnd := creationEpoch + config.supportEpochs + 1;
    PhaseEpochs(creationEpoch, supportEnd, supportEnd, supportEnd + config.discussionEpochs,
                supportEnd + config.discussionEpochs + config.snapshotEpochs)
  }

  /** `required` is the support asked for, in lamports. */
  function GetProposalStatus(config: Config, p: Proposal, epoch: nat, required: real): Status
  {
    if p.finalized then Finalized
    else if epoch >= p.endEpoch && p.endEpoch != 0 then
      if !p.voting then Failed else Finalized
    else
      var phases := GetProposalPhaseEpochs(p.creationEpoch, config);
      var votingStart := if p.voting then p.startEpoch else phases.snapshot + 1;
      if epoch < phases.supportStart then Supporting
      else if p.voting then
        if epoch < votingStart then Discussion else if p.consensusResult then Voting else Discussion
      else if epoch == phases.supportStart then Supporting
      else if epoch < phases.supportEnd then Supporting
      else if epoch == phases.supportEnd then
        if p.clusterSupport as real < required then Failed else Discussion
      else if phases.discussionStart <= epoch <= phases.discussionEnd then Failed
      else if epoch > phases.discussionEnd then Failed
      else
        assert false;
        Supporting
  }

  /** No status is ever taken back, and a final one stays as it is. */
  predicate Forward(a: Status, b: Status)
  {
    Rank(a) <= Rank(b) && (Rank(a) == 3 ==> a == b)
  }

  /** The account unchanged, except that the consensus result may arrive: later
      epochs only move forward. */
  lemma TimeMovesForward(config: Config, p: Proposal, q: Proposal, epoch: nat, later: nat, required: nat -> real)
    requires epoch <= later && (p.consensusResult ==> q.consensusResult)
    requires q == p.(consensusResult := q.consensusResult)
    ensures Forward(GetProposalStatus(config, p, epoch, required(epoch)),
                    GetProposalStatus(config, q, later, required(later)))
  {
  }

  // ----- the on-chain lifecycle

  datatype Event =
    | Tick                                             // the next epoch begins
    | Support(total: nat, threshold: nat, slot: nat)   // a supporter is added, or the support counted anew
    | FlushMerkleRoot(slot: nat)
    | FinalizeProposal

  datatype Chain = Chain(proposal: Proposal, epoch: nat)

  function Created(epoch: nat): Chain { Chain(Proposal(epoch, 0, 0, 0, 0, false, false, false), epoch) }

  function Activated(config: Config, p: Proposal, epoch: nat, slot: nat): Proposal
  {
    var target := epoch + config.discussionEpochs + config.snapshotEpochs;
    p.(startEpoch := target + 1, endEpoch := target + 1 + config.votingEpochs, snapshotSlot := slot,
       consensusResult := true, voting := true)
  }

  function Flushed(config: Config, p: Proposal, epoch: nat, slot: nat): Proposal
  {
    var start := epoch + config.snapshotEpochs + 1;
    p.(startEpoch := start, endEpoch := start + config.votingEpochs, snapshotSlot := slot, consensusResult := true)
  }

  /** An instruction whose conditions do not hold has no effect. */
  function Step(config: Config, c: Chain, e: Event): Chain
  {
    var p := c.proposal;
    match e
    case Tick => c.(epoch := c.epoch + 1)
    case Support(total, threshold, slot) =>
      if p.finalized || p.voting || !(p.creationEpoch <= c.epoch <= p.creationEpoch + config.supportEpochs) then c
      else
        var supported := p.(clusterSupport := total);
        c.(proposal := if total >= threshold then Activated(config, supported, c.epoch, slot) else supported)
    case FlushMerkleRoot(slot) =>
      if c.epoch < p.startEpoch && p.consensusResult && !p.finalized && p.snapshotSlot > 0
      then c.(proposal := Flushed(config, p, c.epoch, slot)) else c
    case FinalizeProposal =>
      if p.voting && !p.finalized && c.epoch >= p.endEpoch then c.(proposal := p.(finalized := true)) else c
  }

  function Run(config: Config, created: nat, events: seq<Event>): Chain
  {
    if events == [] then Created(created)
    else Step(config, Run(config, created, events[..|events| - 1]), events[|events| - 1])
  }

  /** Before support succeeds nothing is scheduled; afterwards voting lies after
      the discussion, and only an ended vote is final. */
  predicate Scheduled(c: Chain)
  {
    var p := c.proposal;
    && p.creationEpoch <= c.epoch
    && (!p.voting ==> p.startEpoch == 0 && p.endEpoch == 0 && !p.consensusResult && !p.finalized)
    && (p.voting ==> p.consensusResult && p.creationEpoch < p.startEpoch <= p.endEpoch)
    && (p.finalized ==> p.endEpoch <= c.epoch)
  }

  lemma StepScheduled(config: Config, c: Chain, e: Event)
    requires Scheduled(c)
    ensures Scheduled(Step(config, c, e))
  {
  }

  lemma {:induction false} RunScheduled(config: Config, created: nat, events: seq<Event>)
    ensures Scheduled(Run(config, created, events))
  {
    if events != [] {
      RunScheduled(config, created, events[..|events| - 1]);
      StepScheduled(config, Run(config, created, events[..|events| - 1]), events[|events| - 1]);
    }
  }

  function Shown(config: Config, c: Chain, required: nat -> real): Status
  {
    GetProposalStatus(config, c.proposal, c.epoch, required(c.epoch))
  }

  /** Whatever happens to a proposal, in whatever order, the status shown never
      moves backwards, and once failed or finalized it stays so. */
  lemma {:induction false} ShownForward(config: Config, created: nat, events: seq<Event>, more: seq<Event>,
                                        required: nat -> real)
    ensures Forward(Shown(config, Run(config, created, events), required),
                    Shown(config, Run(config, created, events + more), required))
  {
    hide Step, Shown, Scheduled;
    if more == [] {
      assert events + more == events;
    } else {
      var n := |more| - 1;
      ShownForward(config, created, events, more[..n], required);
      var before := Run(config, created, events + more[..n]);
      RunScheduled(config, created, events + more[..n]);
      assert (events + more)[..|events + more| - 1] == events + more[..n];
      StepForward(config, before, more[n], required);
    }
  }

  lemma StepForward(config: Config, c: Chain, e: Event, required: nat -> real)
    requires Scheduled(c)
    ensures Forward(Shown(config, c, required), Shown(config, Step(config, c, e), required))
  {
    if e.Tick? {
      TimeMovesForward(config, c.proposal, c.proposal, c.epoch, c.epoch + 1, required);
    }
  }

  /** A failed proposal is one whose support window closed without success; a
      finalized one had its vote, to the end. */
  lemma ShownIff(config: Config, created: nat, events: seq<Event>, required: nat -> real)
    ensures var c := Run(config, created, events);
            var p, windowEnd := c.proposal, c.proposal.creationEpoch + config.supportEpochs;
            && (Shown(config, c, required) == Failed
                <==> !p.voting && (c.epoch > windowEnd + 1
                                   || (c.epoch == windowEnd + 1 && p.clusterSupport as real < required(c.epoch))))
            && (Shown(config, c, required) == Finalized <==> p.voting && c.epoch >= p.endEpoch)
            && (Shown(config, c, required) == Voting <==> p.voting && p.startEpoch <= c.epoch < p.endEpoch)
            && (Shown(config, c, required) == Supporting <==> !p.voting && c.epoch <= windowEnd)
            && (Shown(config, c, required) == Discussion
                <==> (p.voting && c.epoch < p.startEpoch)
                     || (!p.voting && c.epoch == windowEnd + 1 && p.clusterSupport as real >= required(c.epoch)))
  {
    RunScheduled(config, created, events);
  }

  lemma RunAppend(config: Config, created: nat, events: seq<Event>, e: Event)
    ensures Run(config, created, events + [e]) == Step(config, Run(config, created, events), e)
  {
    hide Step;
    assert (events + [e])[..|events|] == events;
  }

  /** A proposal shown in discussion because its support suffices, without the
      voting flag, is shown as failed one epoch later. */
  lemma DiscussionThenFailed(config: Config, created: nat, events: seq<Event>, required: nat -> real)
    requires Shown(config, Run(config, created, events), required) == Discussion
    requires !Run(config, created, events).proposal.voting
    ensures Shown(config, Run(config, created, events + [Tick]), required) == Failed
  {
    hide Run;
    ShownIff(config, created, events, required);
    ShownIff(config, created, events + [Tick], required);
    RunAppend(config, created, events, Tick);
  }

  /** And there are such proposals: with a support window of one epoch, nothing
      required at the next one, and that epoch come. */
  lemma DiscussionWithoutVoting(config: Config, created: nat, events: seq<Event>, required: nat -> real)
    requires config.supportEpochs == 0 && required(created + 1) == 0.0 && events == [] + [Tick]
    ensures Shown(config, Run(config, created, events), required) == Discussion
    ensures !Run(config, created, events).proposal.voting
  {
    RunAppend(config, created, [], Tick);
  }

  /** The proposals shown as finalized are those that the chain lets be finalized. */
  lemma FinalizedIfShown(config: Config, created: nat, events: seq<Event>, required: nat -> real)
    ensures var c, next := Run(config, created, events), Run(config, created, events + [FinalizeProposal]);
            && (next.proposal.finalized <==> Shown(config, c, required) == Finalized)
            && next == c.(proposal := c.proposal.(finalized := next.proposal.finalized))
  {
    RunScheduled(config, created, events);
    RunAppend(config, created, events, FinalizeProposal);
  }

  // ----- the schedule once voting has begun

  /** Voting has begun: the start epoch is reached. */
  predicate Begun(c: Chain) { c.proposal.voting && c.proposal.startEpoch <= c.epoch }

  /** Only the finalized flag may differ. */
  predicate SameSchedule(p: Proposal, q: Proposal) { q == p.(finalized := q.finalized) }

  /** From the first epoch of voting on nothing moves the window or the snapshot. */
  lemma {:induction false} ScheduleIsFinal(config: Config, created: nat, events: seq<Event>, more: seq<Event>)
    requires Begun(Run(config, created, events))
    ensures Begun(Run(config, created, events + more))
    ensures SameSchedule(Run(config, created, events).proposal, Run(config, created, events + more).proposal)
  {
    if more == [] {
      assert events + more == events;
    } else {
      var n := |more| - 1;
      ScheduleIsFinal(config, created, events, more[..n]);
      assert (events + more)[..|events + more| - 1] == events + more[..n];
    }
  }

  // ----- where the schedule comes from

  /** Support counts from the creation epoch to the last of the window, both
      included, while there is no vote yet. */
  predicate Supportable(config: Config, created: nat, c: Chain)
  {
    !c.proposal.voting && created <= c.epoch <= created + config.supportEpochs
  }

  /** Voting starts the epoch after discussion and snapshot, both counted from
      `epoch`, and lasts `votingEpochs`. */
  predicate StartsAfter(config: Config, p: Proposal, epoch: nat, phases: nat, slot: nat)
  {
    && p.startEpoch == epoch + phases + 1 && p.endEpoch == p.startEpoch + config.votingEpochs
    && p.snapshotSlot == slot && p.consensusResult && p.voting
  }

  /** After any run, support is recorded in its window and nowhere else, and from
      the epoch in which it suffices the vote is scheduled. */
  lemma SupportOutcome(config: Config, created: nat, events: seq<Event>, total: nat, threshold: nat, slot: nat)
    ensures var c := Run(config, created, events);
            var next := Run(config, created, events + [Support(total, threshold, slot)]);
            && next.epoch == c.epoch
            && (!Supportable(config, created, c) ==> next == c)
            && (Supportable(config, created, c) && total < threshold ==>
                  next.proposal == c.proposal.(clusterSupport := total))
            && (Supportable(config, created, c) && total >= threshold ==>
                  && next.proposal.clusterSupport == total && !next.proposal.finalized
                  && StartsAfter(config, next.proposal, c.epoch, config.discussionEpochs + config.snapshotEpochs, slot))
  {
    RunScheduled(config, created, events);
    CreatedOnce(config, created, events);
    RunAppend(config, created, events, Support(total, threshold, slot));
  }

  /** The phases that the frontend derives from the creation epoch are the latest
      possible: voting starts no later than the end of their snapshot phase, and
      exactly then if support sufficed in the last epoch of its window. */
  lemma PhasesAreLatest(config: Config, created: nat, events: seq<Event>, total: nat, threshold: nat, slot: nat)
    requires Supportable(config, created, Run(config, created, events)) && total >= threshold
    ensures var phases := GetProposalPhaseEpochs(created, config);
            var epoch := Run(config, created, events).epoch;
            var start := Run(config, created, events + [Support(total, threshold, slot)]).proposal.startEpoch;
            && phases.supportStart == created <= epoch < phases.supportEnd == phases.discussionStart
            && phases.discussionEnd - phases.discussionStart == config.discussionEpochs
            && start <= phases.snapshot && (start == phases.snapshot <==> epoch + 1 == phases.supportEnd)
  {
    SupportOutcome(config, created, events, total, threshold, slot);
  }

  lemma {:induction false} CreatedOnce(config: Config, created: nat, events: seq<Event>)
    ensures Run(config, created, events).proposal.creationEpoch == created
  {
    if events != [] {
      CreatedOnce(config, created, events[..|events| - 1]);
    }
  }

  /** A flush before the vote has begun counts the snapshot phase anew. */
  lemma FlushOutcome(config: Config, created: nat, events: seq<Event>, slot: nat)
    ensures var c := Run(config, created, events);
            var next := Run(config, created, events + [FlushMerkleRoot(slot)]);
            && next.epoch == c.epoch
            && (c.proposal.voting && c.epoch < c.proposal.startEpoch && c.proposal.snapshotSlot > 0
                && !c.proposal.finalized ==>
                  && next.proposal.clusterSupport == c.proposal.clusterSupport && !next.proposal.finalized
                  && StartsAfter(config, next.proposal, c.epoch, config.snapshotEpochs, slot))
            && (!c.proposal.voting || c.epoch >= c.proposal.startEpoch || c.proposal.snapshotSlot == 0 ==> next == c)
  {
    RunScheduled(config, created, events);
    RunAppend(config, created, events, FlushMerkleRoot(slot));
  }

  /** Event `i` set the schedule: sufficient support in its window, or a flush of a
      vote that had not begun. */
  predicate SetBy(config: Config, created: nat, events: seq<Event>, p: Proposal, i: nat)
  {
    && i < |events|
    && var c := Run(config, created, events[..i]);
    match events[i]
    case Support(total, threshold, slot) =>
      && Supportable(config, created, c) && total >= threshold && p.clusterSupport == total
      && StartsAfter(config, p, c.epoch, config.discussionEpochs + config.snapshotEpochs, slot)
    case FlushMerkleRoot(slot) =>
      && c.proposal.voting && c.epoch < c.proposal.startEpoch && p.clusterSupport == c.proposal.clusterSupport
      && StartsAfter(config, p, c.epoch, config.snapshotEpochs, slot)
    case _ => false
  }

  /** Whatever happens, the schedule of a vote goes back to such an event. */
  lemma {:induction false} ScheduleIsSet(config: Config, created: nat, events: seq<Event>)
    requires Run(config, created, events).proposal.voting
    ensures exists i: nat :: SetBy(config, created, events, Run(config, created, events).proposal, i)
  {
    hide SetBy, Supportable, StartsAfter;
    var n := |events| - 1;
    var before, after := Run(config, created, events[..n]), Run(config, created, events);
    CreatedOnce(config, created, events[..n]);
    RunScheduled(config, created, events[..n]);
    if SameSchedule(before.proposal, after.proposal) {
      ScheduleIsSet(config, created, events[..n]);
      var i: nat :| SetBy(config, created, events[..n], before.proposal, i);
      StillSetBy(config, created, events, before.proposal, after.proposal, i);
    } else {
      NewlySet(config, created, events);
    }
  }

  lemma StillSetBy(config: Config, created: nat, events: seq<Event>, p: Proposal, q: Proposal, i: nat)
    requires events != [] && SetBy(config, created, events[..|events| - 1], p, i) && SameSchedule(p, q)
    ensures SetBy(config, created, events, q, i)
  {
    hide Run;
    assert events[..|events| - 1][..i] == events[..i];
  }

  lemma NewlySet(config: Config, created: nat, events: seq<Event>)
    requires events != [] && Run(config, created, events).proposal.voting
    requires !SameSchedule(Run(config, created, events[..|events| - 1]).proposal,
                           Run(config, created, events).proposal)
    ensures SetBy(config, created, events, Run(config, created, events).proposal, |events| - 1)
  {
    RunScheduled(config, created, events[..|events| - 1]);
    CreatedOnce(config, created, events[..|events| - 1]);
  }
}
