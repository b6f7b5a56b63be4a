/** The operators' vote on which snapshot is the right one: one vote each, a
    threshold, a tie breaker after expiry, and a result that is written once. */
module BallotBox {
  import opened Bytes
  import opened Filtering

  type Pubkey = Bytes32

  const MAX_OPERATOR_VOTES: nat := 64
  const MAX_BALLOT_TALLIES: nat := 64
  const MAX_OPERATOR_WHITELIST: nat := 64

  datatype Ballot = Ballot(metaMerkleRoot: Bytes32, snapshotHash: Bytes32)

  datatype OperatorVote = OperatorVote(operator: Pubkey, slotVoted: nat, ballotIndex: u8)

  datatype BallotTally = BallotTally(index: u8, ballot: Ballot, tally: u8)

  /** What is fixed when the box is opened. */
  datatype Terms = Terms(voters: seq<Pubkey>, thresholdBps: nat, expiry: int, snapshotSlot: nat)

  datatype Box = Box(votes: seq<OperatorVote>, tallies: seq<BallotTally>, consensusSlot: nat, winner: Ballot,
                     tieBreaker: bool, result: Option<(Ballot, bool)>)

  function Opened(): Box { Box([], [], 0, Ballot(Zero(), Zero()), false, None) }

  datatype Event =
    | CastVote(operator: Pubkey, ballot: Ballot, slot: nat, time: int)
    | RemoveVote(operator: Pubkey, time: int)
    | ResetBallotBox(admin: bool, time: int)
    | SetTieBreaker(admin: bool, ballot: Ballot, slot: nat, time: int)
    | FinalizeBallot

  // ----- lookups

  function TallyIndex(tallies: seq<BallotTally>, ballot: Ballot): (i: nat)
    ensures i <= |tallies| && (i < |tallies| ==> tallies[i].ballot == ballot)
    ensures forall j :: 0 <= j < i ==> tallies[j].ballot != ballot
  {
    FirstIndex((t: BallotTally) => t.ballot == ballot, tallies)
  }

  function VoteIndex(votes: seq<OperatorVote>, operator: Pubkey): (i: nat)
    ensures i <= |votes| && (i < |votes| ==> votes[i].operator == operator)
    ensures forall j :: 0 <= j < i ==> votes[j].operator != operator
  {
    FirstIndex((v: OperatorVote) => v.operator == operator, votes)
  }

  predicate HasVoted(box: Box, operator: Pubkey) { VoteIndex(box.votes, operator) < |box.votes| }

  /** The share of the voters, in basis points rounded down, is at least the threshold. */
  predicate Reaches(terms: Terms, tally: nat)
  {
    terms.voters != [] && tally * 10_000 / |terms.voters| >= terms.thresholdBps
  }

  // ----- what each instruction asks and does

  predicate MayCast(terms: Terms, box: Box, e: Event)
    requires e.CastVote?
  {
    && e.operator in terms.voters && e.time < terms.expiry && e.ballot.metaMerkleRoot != Zero()
    && e.slot > terms.snapshotSlot && !HasVoted(box, e.operator)
  }

  /** There is room for the vote and, if the ballot is new, for its tally. */
  predicate HasRoom(box: Box, ballot: Ballot)
  {
    var i := TallyIndex(box.tallies, ballot);
    && (if i < |box.tallies| then box.tallies[i].tally < 0xFF else |box.tallies| < MAX_BALLOT_TALLIES)
    && |box.votes| < MAX_OPERATOR_VOTES
  }

  function Counted(box: Box, ballot: Ballot): seq<BallotTally>
    requires HasRoom(box, ballot)
  {
    var i := TallyIndex(box.tallies, ballot);
    if i < |box.tallies| then box.tallies[i := box.tallies[i].(tally := box.tallies[i].tally + 1)]
    else box.tallies + [BallotTally(|box.tallies|, ballot, 1)]
  }

  function AfterCast(terms: Terms, box: Box, e: Event): Box
    requires e.CastVote? && HasRoom(box, e.ballot)
  {
    var i := TallyIndex(box.tallies, e.ballot);
    var tallies := Counted(box, e.ballot);
    var next := box.(tallies := tallies, votes := box.votes + [OperatorVote(e.operator, e.slot, tallies[i].index)]);
    if box.consensusSlot == 0 && Reaches(terms, tallies[i].tally)
    then next.(consensusSlot := e.slot, winner := e.ballot) else next
  }

  predicate MayRemove(terms: Terms, box: Box, e: Event)
    requires e.RemoveVote?
  {
    e.operator in terms.voters && e.time < terms.expiry && box.consensusSlot == 0 && HasVoted(box, e.operator)
  }

  /** The vote's tally exists and is not zero. */
  predicate Removable(box: Box, operator: Pubkey)
  {
    && HasVoted(box, operator)
    && var b := box.votes[VoteIndex(box.votes, operator)].ballotIndex;
    b < |box.tallies| && box.tallies[b].tally > 0
  }

  function AfterRemove(box: Box, operator: Pubkey): Box
    requires Removable(box, operator)
  {
    var v := VoteIndex(box.votes, operator);
    var b := box.votes[v].ballotIndex;
    box.(votes := box.votes[..v] + box.votes[v + 1..],
         tallies := box.tallies[b := box.tallies[b].(tally := box.tallies[b].tally - 1)])
  }

  predicate MayReset(terms: Terms, box: Box, e: Event)
    requires e.ResetBallotBox?
  {
    e.admin && box.consensusSlot == 0 && e.time < terms.expiry && |box.tallies| == MAX_BALLOT_TALLIES
  }

  predicate MayBreakTie(terms: Terms, box: Box, e: Event)
    requires e.SetTieBreaker?
  {
    e.admin && e.time >= terms.expiry && box.consensusSlot == 0
  }

  predicate MayFinalize(box: Box) { box.consensusSlot != 0 && box.result.None? }

  predicate Accepts(terms: Terms, box: Box, e: Event)
  {
    match e
    case CastVote(_, ballot, _, _) => MayCast(terms, box, e) && HasRoom(box, ballot)
    case RemoveVote(operator, _) => MayRemove(terms, box, e) && Removable(box, operator)
    case ResetBallotBox(_, _) => MayReset(terms, box, e)
    case SetTieBreaker(_, _, _, _) => MayBreakTie(terms, box, e)
    case FinalizeBallot => MayFinalize(box)
  }

  function Step(terms: Terms, box: Box, e: Event): Box
  {
    if !Accepts(terms, box, e) then box
    else
      match e
      case CastVote(_, _, _, _) => AfterCast(terms, box, e)
      case RemoveVote(operator, _) => AfterRemove(box, operator)
      case ResetBallotBox(_, _) => box.(votes := [], tallies := [])
      case SetTieBreaker(_, ballot, slot, _) => box.(consensusSlot := slot, winner := ballot, tieBreaker := true)
      case FinalizeBallot => box.(result := Some((box.winner, box.tieBreaker)))
  }

  function Run(terms: Terms, events: seq<Event>): Box
  {
    if events == [] then Opened() else Step(terms, Run(terms, events[..|events| - 1]), events[|events| - 1])
  }

  // ----- the handlers

  class BallotBoxAccount {
    const terms: Terms
    var votes: seq<OperatorVote>
    var tallies: seq<BallotTally>
    var consensusSlot: nat
    var winner: Ballot
    var tieBreaker: bool
    var result: Option<(Ballot, bool)>

    constructor (terms: Terms)
      ensures this.terms == terms && Contents() == Opened()
    {
      this.terms := terms;
      votes, tallies, consensusSlot, winner, tieBreaker, result := [], [], 0, Ballot(Zero(), Zero()), false, None;
    }

    function Contents(): Box
      reads this
    {
      Box(votes, tallies, consensusSlot, winner, tieBreaker, result)
    }

    method CastVote(operator: Pubkey, ballot: Ballot, slot: nat, time: int) returns (ok: bool)
      modifies this
      ensures ok <==> Accepts(terms, old(Contents()), Event.CastVote(operator, ballot, slot, time))
      ensures Contents() == Step(terms, old(Contents()), Event.CastVote(operator, ballot, slot, time))
    {
      hide FirstIndex, Reaches;
      if operator !in terms.voters || time >= terms.expiry || ballot.metaMerkleRoot == Zero()
         || slot <= terms.snapshotSlot {
        return false;
      }
      if VoteIndex(votes, operator) < |votes| {
        return false;
      }
      var counted, ballotIndex: u8, tally: u8, found := tallies, 0, 0, false;
      for i := 0 to |tallies|
        invariant !found && counted == tallies && forall j :: 0 <= j < i ==> tallies[j].ballot != ballot
      {
        if tallies[i].ballot == ballot {
          assert TallyIndex(tallies, ballot) == i;
          if tallies[i].tally == 0xFF {
            return false;
          }
          counted := tallies[i := tallies[i].(tally := tallies[i].tally + 1)];
          ballotIndex, tally, found := tallies[i].index, tallies[i].tally + 1, true;
          break;
        }
      }
      if !found {
        if |tallies| >= MAX_BALLOT_TALLIES {
          return false;
        }
        counted := tallies + [BallotTally(|tallies|, ballot, 1)];
        ballotIndex, tally := |tallies|, 1;
      }
      if |votes| >= MAX_OPERATOR_VOTES {
        return false;
      }
      tallies := counted;
      votes := votes + [OperatorVote(operator, slot, ballotIndex)];
      if consensusSlot == 0 && Reaches(terms, tally) {
        consensusSlot, winner := slot, ballot;
      }
      return true;
    }

    method RemoveVote(operator: Pubkey, time: int) returns (ok: bool)
      modifies this`votes, this`tallies
      ensures ok <==> Accepts(terms, old(Contents()), Event.RemoveVote(operator, time))
      ensures Contents() == Step(terms, old(Contents()), Event.RemoveVote(operator, time))
    {
      if operator !in terms.voters || time >= terms.expiry || consensusSlot != 0 {
        return false;
      }
      var at := VoteIndex(votes, operator);
      if at == |votes| {
        return false;
      }
      var b := votes[at].ballotIndex;
      if b >= |tallies| || tallies[b].tally == 0 {
        return false;
      }
      votes := votes[..at] + votes[at + 1..];
      tallies := tallies[b := tallies[b].(tally := tallies[b].tally - 1)];
      return true;
    }

    method ResetBallotBox(admin: bool, time: int) returns (ok: bool)
      modifies this`votes, this`tallies
      ensures ok <==> Accepts(terms, old(Contents()), Event.ResetBallotBox(admin, time))
      ensures Contents() == Step(terms, old(Contents()), Event.ResetBallotBox(admin, time))
    {
      if !admin || consensusSlot != 0 || time >= terms.expiry || |tallies| != MAX_BALLOT_TALLIES {
        return false;
      }
      votes, tallies := [], [];
      return true;
    }

    method SetTieBreaker(admin: bool, ballot: Ballot, slot: nat, time: int) returns (ok: bool)
      modifies this`consensusSlot, this`winner, this`tieBreaker
      ensures ok <==> Accepts(terms, old(Contents()), Event.SetTieBreaker(admin, ballot, slot, time))
      ensures Contents() == Step(terms, old(Contents()), Event.SetTieBreaker(admin, ballot, slot, time))
    {
      if !admin || time < terms.expiry || consensusSlot != 0 {
        return false;
      }
      consensusSlot, winner, tieBreaker := slot, ballot, true;
      return true;
    }

    method FinalizeBallot() returns (ok: bool)
      modifies this`result
      ensures ok <==> Accepts(terms, old(Contents()), Event.FinalizeBallot)
      ensures Contents() == Step(terms, old(Contents()), Event.FinalizeBallot)
    {
      if result.Some? || consensusSlot == 0 {
        return false;
      }
      result := Some((winner, tieBreaker));
      return true;
    }
  }
}
