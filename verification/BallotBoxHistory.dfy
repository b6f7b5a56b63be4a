/** The ballot box read off the list of events: whose vote stands, which event
    decided, and what exactly is let through. */
module BallotBoxHistory {
  import opened Bytes
  import opened Filtering
  import opened BallotBox
  import opened BallotBoxLaws
  import opened BallotBoxAdmission

  /** The share reaches the threshold without any rounding. */
  lemma ReachesIff(terms: Terms, tally: nat)
    ensures Reaches(terms, tally)
            <==> terms.voters != [] && tally * 10_000 >= terms.thresholdBps * |terms.voters|
  {
    if terms.voters != [] {
      DivisionIff(tally * 10_000, |terms.voters|, terms.thresholdBps);
    }
  }

  lemma DivisionIff(a: nat, n: nat, q: nat)
    requires n > 0
    ensures a / n >= q <==> a >= q * n
  {
    var p := a / n;
    assert p * n <= a < (p + 1) * n;
    if a >= q * n {
      Quotient(a, q, p, n);
    }
    if p >= q {
      assert p * n >= q * n;
    }
  }

  // ----- what is let through

  /** Written out for each event, on the record alone. */
  ghost predicate Permitted(terms: Terms, box: Box, e: Event)
  {
    match e
    case CastVote(operator, ballot, slot, time) =>
      && operator in terms.voters && (forall v :: v in box.votes ==> v.operator != operator)
      && time < terms.expiry && slot > terms.snapshotSlot && ballot.metaMerkleRoot != Zero()
      && ((exists t :: t in box.tallies && t.ballot == ballot) || |box.tallies| < 64)
    case RemoveVote(operator, time) =>
      && operator in terms.voters && (exists v :: v in box.votes && v.operator == operator)
      && time < terms.expiry && box.consensusSlot == 0
    case ResetBallotBox(admin, time) =>
      admin && time < terms.expiry && box.consensusSlot == 0 && |box.tallies| == 64
    case SetTieBreaker(admin, _, _, time) => admin && time >= terms.expiry && box.consensusSlot == 0
    case FinalizeBallot => box.consensusSlot != 0 && box.result.None?
  }

  lemma HasTallyMember(box: Box, ballot: Ballot)
    ensures HasTally(box, ballot) <==> exists t :: t in box.tallies && t.ballot == ballot
  {
    hide HasTally;
    HasTallyIff(box, ballot);
  }

  /** After any run an event goes through exactly when it is permitted. */
  lemma AcceptedIffPermitted(terms: Terms, events: seq<Event>, e: Event)
    requires |terms.voters| <= MAX_OPERATOR_WHITELIST
    ensures Accepts(terms, Run(terms, events), e) <==> Permitted(terms, Run(terms, events), e)
  {
    hide Run, HasRoom, Removable, VoteIndex, HasTally;
    match e
    case CastVote(operator, ballot, _, _) =>
      CastAcceptedIff(terms, events, e);
      HasTallyMember(Run(terms, events), ballot);
      VotedIff(Run(terms, events).votes, operator);
    case RemoveVote(operator, _) =>
      RemovalNeverFails(terms, events, e);
      VotedIff(Run(terms, events).votes, operator);
    case _ =>
  }

  // ----- whose vote stands

  predicate Accepted(terms: Terms, events: seq<Event>, i: nat)
    requires i < |events|
  {
    Accepts(terms, Run(terms, events[..i]), events[i])
  }

  /** What an accepted event does to the operator's standing vote. */
  predicate Votes(e: Event, operator: Pubkey, ballot: Ballot)
  {
    e.CastVote? && e.operator == operator && e.ballot == ballot
  }

  predicate TakesBack(e: Event, operator: Pubkey) { e.ResetBallotBox? || (e.RemoveVote? && e.operator == operator) }

  /** Event `i` is the operator's accepted vote for the ballot, and no accepted
      event since has taken it back. */
  predicate StandsSince(terms: Terms, events: seq<Event>, operator: Pubkey, ballot: Ballot, i: nat)
  {
    && i < |events| && Accepted(terms, events, i) && Votes(events[i], operator, ballot)
    && forall j :: i < j < |events| && Accepted(terms, events, j) ==> !TakesBack(events[j], operator)
  }

  /** An accepted event makes, withdraws or leaves alone the operator's vote. */
  lemma BacksAfter(terms: Terms, box: Box, e: Event, operator: Pubkey, ballot: Ballot)
    requires Invariant(terms, box) && Accepts(terms, box, e)
    ensures Backs(Step(terms, box, e), operator, ballot)
            <==> Votes(e, operator, ballot) || (Backs(box, operator, ballot) && !TakesBack(e, operator))
  {
    hide Invariant, Backs, Step, Accepts;
    if Votes(e, operator, ballot) {
      CastBacks(terms, box, e);
    } else if TakesBack(e, operator) {
      TakenBack(terms, box, e, operator, ballot);
    } else {
      if Backs(box, operator, ballot) {
        OthersLeave(terms, box, e, operator, ballot);
      }
      if Backs(Step(terms, box, e), operator, ballot) {
        StoodBefore(terms, box, e, operator, ballot);
      }
    }
  }

  lemma TakenBack(terms: Terms, box: Box, e: Event, operator: Pubkey, ballot: Ballot)
    requires Invariant(terms, box) && Accepts(terms, box, e) && TakesBack(e, operator)
    ensures !Backs(Step(terms, box, e), operator, ballot)
  {
    hide Tallied, Decided, Reaches, FirstIndex, MayRemove, MayReset, VoteIsFor;
    if e.RemoveVote? {
      var at := VoteIndex(box.votes, operator);
      forall v | v in Step(terms, box, e).votes ensures v.operator != operator {
        VotesRemove(terms, box.votes, at, v);
      }
    }
  }

  lemma OthersLeave(terms: Terms, box: Box, e: Event, operator: Pubkey, ballot: Ballot)
    requires Accepts(terms, box, e) && Backs(box, operator, ballot)
    requires !Votes(e, operator, ballot) && !TakesBack(e, operator)
    ensures Backs(Step(terms, box, e), operator, ballot)
  {
    hide Step, HasRoom, Removable, VoteIsFor;
    var v :| v in box.votes && v.operator == operator && VoteIsFor(box, v, ballot);
    VotedIff(box.votes, operator);
    BacksStays(terms, box, e, operator, ballot);
  }

  lemma StoodBefore(terms: Terms, box: Box, e: Event, operator: Pubkey, ballot: Ballot)
    requires Invariant(terms, box) && Accepts(terms, box, e) && Backs(Step(terms, box, e), operator, ballot)
    requires !Votes(e, operator, ballot) && !TakesBack(e, operator)
    ensures Backs(box, operator, ballot)
  {
    hide Step, Decided, OneVoteEach, Backers, Accepts;
    var next := Step(terms, box, e);
    var v :| v in next.votes && v.operator == operator && VoteIsFor(next, v, ballot);
    TalliesStay(terms, box, e);
    if v in box.votes {
      assert VoteIsFor(box, v, ballot);
    } else {
      NewVote(terms, box, e, v);
      CastBacks(terms, box, e);
      var w :| w in next.votes && w.operator == operator && VoteIsFor(next, w, e.ballot);
      StepKeeps(terms, box, e);
      OneVote(terms, next.votes, v, w);
    }
  }

  lemma NewVote(terms: Terms, box: Box, e: Event, v: OperatorVote)
    requires v in Step(terms, box, e).votes && v !in box.votes
    ensures e.CastVote? && e.operator == v.operator && e.slot == v.slotVoted && Accepts(terms, box, e)
  {
    hide Reaches, FirstIndex, MayCast, MayRemove, MayReset, MayBreakTie, MayFinalize, Counted;
  }

  lemma OneVote(terms: Terms, votes: seq<OperatorVote>, v: OperatorVote, w: OperatorVote)
    requires OneVoteEach(terms, votes) && v in votes && w in votes && v.operator == w.operator
    ensures v == w
  {
    var i :| 0 <= i < |votes| && votes[i] == v;
    var j :| 0 <= j < |votes| && votes[j] == w;
  }

  lemma StandsSinceStep(terms: Terms, events: seq<Event>, operator: Pubkey, ballot: Ballot)
    requires events != []
    ensures var n := |events| - 1; var accepted := Accepted(terms, events, n);
            (exists i: nat :: StandsSince(terms, events, operator, ballot, i))
            <==> || (accepted && Votes(events[n], operator, ballot))
                 || ((exists i: nat :: StandsSince(terms, events[..n], operator, ballot, i))
                     && !(accepted && TakesBack(events[n], operator)))
  {
    hide Accepted, Votes, TakesBack;
    var n := |events| - 1;
    AcceptedInPrefix(terms, events, n);
    if i: nat :| StandsSince(terms, events, operator, ballot, i) {
      assert i < n ==> StandsSince(terms, events[..n], operator, ballot, i);
    }
    if Accepted(terms, events, n) && Votes(events[n], operator, ballot) {
      assert StandsSince(terms, events, operator, ballot, n);
    }
    if i: nat :| StandsSince(terms, events[..n], operator, ballot, i) {
      assert !(Accepted(terms, events, n) && TakesBack(events[n], operator)) ==>
        StandsSince(terms, events, operator, ballot, i);
    }
  }

  lemma AcceptedInPrefix(terms: Terms, events: seq<Event>, n: nat)
    requires n <= |events|
    ensures forall i: nat :: i < n ==> (Accepted(terms, events[..n], i) <==> Accepted(terms, events, i))
  {
    hide Accepts, Run;
    forall i: nat | i < n ensures Accepted(terms, events[..n], i) <==> Accepted(terms, events, i) {
      assert events[..n][..i] == events[..i];
    }
  }

  /** After any run, an operator's vote stands for a ballot exactly when the
      operator's vote for it was accepted and not taken back since. */
  lemma {:induction false} StandingIffCast(terms: Terms, events: seq<Event>, operator: Pubkey, ballot: Ballot)
    ensures Backs(Run(terms, events), operator, ballot)
            <==> exists i: nat :: StandsSince(terms, events, operator, ballot, i)
  {
    hide Accepts, Backs, StandsSince, Votes, TakesBack, Invariant;
    if events == [] {
      NobodyBacks(terms, operator, ballot);
    } else {
      var n := |events| - 1;
      StandingIffCast(terms, events[..n], operator, ballot);
      StandsSinceStep(terms, events, operator, ballot);
      EveryRunKeeps(terms, events[..n]);
      if Accepts(terms, Run(terms, events[..n]), events[n]) {
        BacksAfter(terms, Run(terms, events[..n]), events[n], operator, ballot);
      }
    }
  }

  lemma NobodyBacks(terms: Terms, operator: Pubkey, ballot: Ballot)
    ensures !Backs(Opened(), operator, ballot)
    ensures !exists i: nat :: StandsSince(terms, [], operator, ballot, i)
  {
  }

  /** Event `i` is the accepted vote that is recorded as `v`. */
  predicate CastAt(terms: Terms, events: seq<Event>, v: OperatorVote, i: nat)
  {
    && i < |events| && Accepted(terms, events, i) && events[i].CastVote?
    && events[i].operator == v.operator && events[i].slot == v.slotVoted
  }

  /** Every vote on record was cast by its operator at its slot. */
  lemma {:induction false} VotesWereCast(terms: Terms, events: seq<Event>, v: OperatorVote)
    requires v in Run(terms, events).votes
    ensures exists i: nat :: CastAt(terms, events, v, i)
  {
    hide Step, Accepts;
    var n := |events| - 1;
    AcceptedInPrefix(terms, events, n);
    if v in Run(terms, events[..n]).votes {
      VotesWereCast(terms, events[..n], v);
      var i: nat :| CastAt(terms, events[..n], v, i);
      assert CastAt(terms, events, v, i);
    } else {
      NewVote(terms, Run(terms, events[..n]), events[n], v);
      assert CastAt(terms, events, v, n);
    }
  }

  // ----- which event decided

  /** Event `i` is the accepted vote or tie breaker after which the outcome stood. */
  predicate DecidedBy(terms: Terms, events: seq<Event>, i: nat)
  {
    && i < |events| && Accepted(terms, events, i) && (events[i].CastVote? || events[i].SetTieBreaker?)
    && Run(terms, events[..i]).consensusSlot == 0
    && Run(terms, events).consensusSlot == events[i].slot && Run(terms, events).winner == events[i].ballot
    && (events[i].SetTieBreaker? ==> Run(terms, events).tieBreaker)
  }

  lemma StepDecides(terms: Terms, box: Box, e: Event)
    ensures var next := Step(terms, box, e);
            if box.consensusSlot != 0
            then next.consensusSlot == box.consensusSlot && next.winner == box.winner
                 && next.tieBreaker == box.tieBreaker
            else next.consensusSlot != 0 ==>
                   && Accepts(terms, box, e) && (e.CastVote? || e.SetTieBreaker?)
                   && next.consensusSlot == e.slot && next.winner == e.ballot
                   && (e.SetTieBreaker? ==> next.tieBreaker)
  {
    hide Reaches, FirstIndex, MayCast, MayRemove, MayReset, Counted, HasRoom, Removable;
  }

  /** Whatever is on record as the winner was named, at that slot, by an accepted
      event before which nothing was decided. */
  lemma {:induction false} WinnerWasNamed(terms: Terms, events: seq<Event>)
    requires Run(terms, events).consensusSlot != 0
    ensures exists i: nat :: DecidedBy(terms, events, i)
  {
    hide Step, Accepts;
    var n := |events| - 1;
    var before := Run(terms, events[..n]);
    StepDecides(terms, before, events[n]);
    AcceptedInPrefix(terms, events, n);
    if before.consensusSlot != 0 {
      WinnerWasNamed(terms, events[..n]);
      var i: nat :| DecidedBy(terms, events[..n], i);
      assert events[..n][..i] == events[..i];
      assert DecidedBy(terms, events, i);
    } else {
      assert DecidedBy(terms, events, n);
    }
  }

  /** An accepted tie breaker puts the ballot it names on record, and from then on,
      slot 0 being the mark of no consensus, the winner and any result that is
      written are that ballot. */
  lemma TieBreakerDecides(terms: Terms, events: seq<Event>, e: Event, more: seq<Event>)
    requires e.SetTieBreaker? && Accepts(terms, Run(terms, events), e)
    ensures var box := Run(terms, events + [e]);
            box.winner == e.ballot && box.tieBreaker && box.consensusSlot == e.slot
    ensures e.slot != 0 ==>
              var box := Run(terms, events + [e] + more);
              && box.consensusSlot == e.slot && box.winner == e.ballot && box.tieBreaker
              && (box.result.Some? ==> box.result.value == (e.ballot, true))
  {
    hide Run, Tallied, OneVoteEach, Reaches;
    RunAppend(terms, events, e);
    if e.slot != 0 {
      ConsensusIsFinal(terms, events + [e], more);
      EveryRunKeeps(terms, events + [e] + more);
    }
  }
}
