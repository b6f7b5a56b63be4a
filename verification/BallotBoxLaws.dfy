/** What the ballot box guarantees over every run: one vote per operator, exact
    tallies, a winner that has its quorum and never changes, and no other winner
    than the ballot of the honest operators while the others are too few. */
module BallotBoxLaws {
  import opened Bytes
  import opened Filtering
  import opened BallotBox

  /** The operators whose standing vote is for tally `i`. */
  function Backers(votes: seq<OperatorVote>, i: nat): set<Pubkey>
  {
    set v | v in votes && v.ballotIndex == i :: v.operator
  }

  ghost predicate OneVoteEach(terms: Terms, votes: seq<OperatorVote>)
  {
    && (forall i, j :: 0 <= i < j < |votes| ==> votes[i].operator != votes[j].operator)
    && (forall i :: 0 <= i < |votes| ==> votes[i].operator in terms.voters)
  }

  /** Tally `i` is filed under `i`, is the only one for its ballot and counts
      exactly the votes for it. */
  ghost predicate Tallied(votes: seq<OperatorVote>, tallies: seq<BallotTally>)
  {
    && (forall i :: 0 <= i < |tallies| ==> tallies[i].index == i && tallies[i].tally == |Backers(votes, i)|)
    && (forall i, j :: 0 <= i < j < |tallies| ==> tallies[i].ballot != tallies[j].ballot)
    && (forall v :: v in votes ==> v.ballotIndex < |tallies|)
  }

  /** Consensus is on record exactly from the first tally that reaches it. */
  ghost predicate Decided(terms: Terms, box: Box)
  {
    && (box.consensusSlot == 0 ==> forall i :: 0 <= i < |box.tallies| ==> !Reaches(terms, box.tallies[i].tally))
    && (box.consensusSlot != 0 && !box.tieBreaker ==>
          exists i :: 0 <= i < |box.tallies| && box.tallies[i].ballot == box.winner
                      && Reaches(terms, box.tallies[i].tally))
    && (box.result.Some? ==> box.consensusSlot != 0 && box.result.value == (box.winner, box.tieBreaker))
  }

  ghost predicate Invariant(terms: Terms, box: Box)
  {
    && OneVoteEach(terms, box.votes) && Tallied(box.votes, box.tallies) && Decided(terms, box)
    && |box.votes| <= MAX_OPERATOR_VOTES && |box.tallies| <= MAX_BALLOT_TALLIES
  }

  // ----- casting

  lemma BackersAppend(votes: seq<OperatorVote>, v: OperatorVote, i: nat)
    ensures Backers(votes + [v], i) == Backers(votes, i) + if v.ballotIndex == i then {v.operator} else {}
  {
    var all := votes + [v];
    assert forall x :: x in all <==> x in votes || x == v;
  }

  lemma NotVoted(votes: seq<OperatorVote>, operator: Pubkey)
    requires VoteIndex(votes, operator) == |votes|
    ensures forall i :: operator !in Backers(votes, i)
    ensures forall v :: v in votes ==> v.operator != operator
  {
  }

  lemma TalliedAfterCast(terms: Terms, box: Box, e: Event)
    requires e.CastVote? && HasRoom(box, e.ballot) && Tallied(box.votes, box.tallies)
    requires VoteIndex(box.votes, e.operator) == |box.votes|
    ensures var next := AfterCast(terms, box, e); Tallied(next.votes, next.tallies)
  {
    hide Backers, MayCast, AfterCast, Counted, VoteIndex;
    var at := TallyIndex(box.tallies, e.ballot);
    var tallies := Counted(box, e.ballot);
    CountedIs(box, e.ballot);
    var v := OperatorVote(e.operator, e.slot, tallies[at].index);
    NotVoted(box.votes, e.operator);
    forall i | 0 <= i < |tallies| ensures tallies[i].tally == |Backers(box.votes + [v], i)| {
      BackersAppend(box.votes, v, i);
      if i == |box.tallies| {
        NoBackers(box.votes, i);
      }
    }
    AfterCastIs(terms, box, e);
  }

  /** One tally more or one tally higher, and still one for each ballot. */
  lemma CountedIs(box: Box, ballot: Ballot)
    requires HasRoom(box, ballot) && Tallied(box.votes, box.tallies)
    ensures var t, next := TallyIndex(box.tallies, ballot), Counted(box, ballot);
            && t < |next| && |next| == (if t == |box.tallies| then t + 1 else |box.tallies|)
            && (forall i :: 0 <= i < |next| ==> next[i].index == i)
            && (forall i :: 0 <= i < |box.tallies| ==>
                  next[i].tally == box.tallies[i].tally + if i == t then 1 else 0)
            && (t == |box.tallies| ==> next[t].tally == 1)
            && (forall i, j :: 0 <= i < j < |next| ==> next[i].ballot != next[j].ballot)
  {
    hide Backers;
  }

  lemma AfterCastIs(terms: Terms, box: Box, e: Event)
    requires e.CastVote? && HasRoom(box, e.ballot)
    ensures var next, tallies := AfterCast(terms, box, e), Counted(box, e.ballot);
            && next.tallies == tallies
            && next.votes
               == box.votes + [OperatorVote(e.operator, e.slot, tallies[TallyIndex(box.tallies, e.ballot)].index)]
  {
  }

  lemma NoBackers(votes: seq<OperatorVote>, i: nat)
    requires forall v :: v in votes ==> v.ballotIndex < i
    ensures Backers(votes, i) == {}
  {
  }

  lemma DecidedAfterCast(terms: Terms, box: Box, e: Event)
    requires e.CastVote? && MayCast(terms, box, e) && HasRoom(box, e.ballot) && Decided(terms, box)
    ensures Decided(terms, AfterCast(terms, box, e))
  {
    var at := TallyIndex(box.tallies, e.ballot);
    var next := AfterCast(terms, box, e);
    if box.consensusSlot != 0 {
      if !box.tieBreaker {
        var i :| 0 <= i < |box.tallies| && box.tallies[i].ballot == box.winner && Reaches(terms, box.tallies[i].tally);
        MoreReaches(terms, box.tallies[i].tally, next.tallies[i].tally);
        assert next.tallies[i].ballot == next.winner;
      }
    } else if Reaches(terms, next.tallies[at].tally) {
      assert next.tallies[at].ballot == next.winner;
    }
  }

  lemma MoreReaches(terms: Terms, few: nat, many: nat)
    requires few <= many && Reaches(terms, few)
    ensures Reaches(terms, many)
  {
    DivisionGrows(few * 10_000, many * 10_000, |terms.voters|);
  }

  /** `p` copies of `n` fit into `a`, and no more than `q` into `b`. */
  lemma Quotient(a: nat, p: nat, q: nat, n: nat)
    requires n > 0 && p * n <= a < (q + 1) * n
    ensures p <= q
  {
    if q + 1 <= p {
    }
  }

  lemma DivisionGrows(a: nat, b: nat, n: nat)
    requires a <= b && n > 0
    ensures a / n <= b / n
  {
    Quotient(a, a / n, b / n, n);
  }

  // ----- removing

  lemma VotesRemove(terms: Terms, votes: seq<OperatorVote>, at: nat, v: OperatorVote)
    requires OneVoteEach(terms, votes) && at < |votes|
    ensures v in votes[..at] + votes[at + 1..] <==> v in votes && v != votes[at]
    ensures v in votes && v.operator == votes[at].operator ==> v == votes[at]
  {
    OthersRemain(votes, at, v);
    if v in votes {
      var j :| 0 <= j < |votes| && votes[j] == v;
    }
  }

  lemma OthersRemain(votes: seq<OperatorVote>, at: nat, v: OperatorVote)
    requires at < |votes|
    ensures v in votes[..at] + votes[at + 1..] <==> exists j :: 0 <= j < |votes| && j != at && votes[j] == v
  {
    var rest := votes[..at] + votes[at + 1..];
    if j :| 0 <= j < |votes| && j != at && votes[j] == v {
      assert rest[if j < at then j else j - 1] == v;
    }
    if v in rest {
      var j :| 0 <= j < |rest| && rest[j] == v;
      assert v == votes[if j < at then j else j + 1];
    }
  }

  lemma BackersRemove(terms: Terms, votes: seq<OperatorVote>, at: nat, i: nat)
    requires OneVoteEach(terms, votes) && at < |votes|
    ensures Backers(votes[..at] + votes[at + 1..], i)
            == Backers(votes, i) - if votes[at].ballotIndex == i then {votes[at].operator} else {}
  {
    hide OneVoteEach;
    var rest := votes[..at] + votes[at + 1..];
    forall v ensures (v in rest <==> v in votes && v != votes[at])
                     && (v in votes && v.operator == votes[at].operator ==> v == votes[at])
    {
      VotesRemove(terms, votes, at, v);
    }
    assert votes[at] in votes;
  }

  lemma BackersMember(votes: seq<OperatorVote>, at: nat)
    requires at < |votes|
    ensures votes[at].operator in Backers(votes, votes[at].ballotIndex)
  {
    assert votes[at] in votes;
  }

  /** A vote that stands can always be taken back: its tally is there and positive. */
  lemma RemovableIfVoted(terms: Terms, box: Box, operator: Pubkey)
    requires Invariant(terms, box) && HasVoted(box, operator)
    ensures Removable(box, operator)
  {
    hide Backers, OneVoteEach, Decided;
    var at := VoteIndex(box.votes, operator);
    assert box.votes[at] in box.votes;
    BackersMember(box.votes, at);
  }

  lemma TalliedAfterRemove(terms: Terms, box: Box, operator: Pubkey)
    requires OneVoteEach(terms, box.votes) && Tallied(box.votes, box.tallies) && Removable(box, operator)
    ensures var next := AfterRemove(box, operator);
            OneVoteEach(terms, next.votes) && Tallied(next.votes, next.tallies)
  {
    hide Backers;
    var at := VoteIndex(box.votes, operator);
    var next := AfterRemove(box, operator);
    forall i | 0 <= i < |next.tallies| ensures next.tallies[i].tally == |Backers(next.votes, i)| {
      BackersRemove(terms, box.votes, at, i);
      BackersMember(box.votes, at);
    }
    forall v | v in next.votes ensures v in box.votes {
    }
  }

  lemma DecidedAfterRemove(terms: Terms, box: Box, operator: Pubkey)
    requires Decided(terms, box) && box.consensusSlot == 0 && Removable(box, operator)
    ensures Decided(terms, AfterRemove(box, operator))
  {
    hide Reaches;
    var next := AfterRemove(box, operator);
    forall i | 0 <= i < |next.tallies| ensures !Reaches(terms, next.tallies[i].tally) {
      if Reaches(terms, next.tallies[i].tally) {
        MoreReaches(terms, next.tallies[i].tally, box.tallies[i].tally);
      }
    }
  }

  // ----- every run

  lemma StepKeeps(terms: Terms, box: Box, e: Event)
    requires Invariant(terms, box)
    ensures Invariant(terms, Step(terms, box, e))
  {
    hide Tallied, Decided, Reaches, OneVoteEach, AfterCast, AfterRemove, HasRoom, Removable;
    if Accepts(terms, box, e) {
      match e
      case CastVote(operator, ballot, _, _) =>
        TalliedAfterCast(terms, box, e);
        DecidedAfterCast(terms, box, e);
        OneVoteAfterCast(terms, box, e);
      case RemoveVote(operator, _) =>
        TalliedAfterRemove(terms, box, operator);
        DecidedAfterRemove(terms, box, operator);
        SizeAfterRemove(box, operator);
      case ResetBallotBox(_, _) => EmptyAgain(terms, box);
      case SetTieBreaker(_, ballot, slot, _) => TieBroken(terms, box, ballot, slot);
      case FinalizeBallot => ResultWritten(terms, box);
    }
  }

  lemma OneVoteAfterCast(terms: Terms, box: Box, e: Event)
    requires OneVoteEach(terms, box.votes) && e.CastVote? && MayCast(terms, box, e) && HasRoom(box, e.ballot)
    requires |box.votes| <= MAX_OPERATOR_VOTES && |box.tallies| <= MAX_BALLOT_TALLIES
    ensures var next := AfterCast(terms, box, e);
            && OneVoteEach(terms, next.votes)
            && |next.votes| <= MAX_OPERATOR_VOTES && |next.tallies| <= MAX_BALLOT_TALLIES
  {
    hide Reaches, TallyIndex;
    AfterCastIs(terms, box, e);
    NotVoted(box.votes, e.operator);
  }

  lemma SizeAfterRemove(box: Box, operator: Pubkey)
    requires Removable(box, operator)
    ensures var next := AfterRemove(box, operator);
            |next.votes| == |box.votes| - 1 && |next.tallies| == |box.tallies|
  {
  }

  lemma EmptyAgain(terms: Terms, box: Box)
    requires Decided(terms, box) && box.consensusSlot == 0
    ensures OneVoteEach(terms, []) && Tallied([], []) && Decided(terms, box.(votes := [], tallies := []))
  {
  }

  lemma TieBroken(terms: Terms, box: Box, ballot: Ballot, slot: nat)
    requires Decided(terms, box) && box.consensusSlot == 0
    ensures Decided(terms, box.(consensusSlot := slot, winner := ballot, tieBreaker := true))
  {
  }

  lemma ResultWritten(terms: Terms, box: Box)
    requires Decided(terms, box) && box.consensusSlot != 0
    ensures Decided(terms, box.(result := Some((box.winner, box.tieBreaker))))
  {
  }

  lemma {:induction false} EveryRunKeeps(terms: Terms, events: seq<Event>)
    ensures Invariant(terms, Run(terms, events))
  {
    hide Step;
    if events != [] {
      var n := |events| - 1;
      EveryRunKeeps(terms, events[..n]);
      StepKeeps(terms, Run(terms, events[..n]), events[n]);
    }
  }

  /** The checked subtraction and the index into the tallies never fail. */
  lemma RemovalNeverFails(terms: Terms, events: seq<Event>, e: Event)
    requires e.RemoveVote?
    ensures Accepts(terms, Run(terms, events), e) <==> MayRemove(terms, Run(terms, events), e)
  {
    hide Run, Invariant;
    EveryRunKeeps(terms, events);
    if HasVoted(Run(terms, events), e.operator) {
      RemovableIfVoted(terms, Run(terms, events), e.operator);
    }
  }

  /** Once consensus is on record it stays as it is, and so does the result. */
  lemma {:induction false} ConsensusIsFinal(terms: Terms, events: seq<Event>, more: seq<Event>)
    requires Run(terms, events).consensusSlot != 0
    ensures var now, later := Run(terms, events), Run(terms, events + more);
            && later.consensusSlot == now.consensusSlot
            && later.winner == now.winner && later.tieBreaker == now.tieBreaker
            && (now.result.Some? ==> later.result == now.result)
  {
    hide HasRoom, Removable, MayCast, MayRemove, Reaches;
    if more == [] {
      assert events + more == events;
    } else {
      var n := |more| - 1;
      ConsensusIsFinal(terms, events, more[..n]);
      assert (events + more)[..|events| + n] == events + more[..n];
    }
  }

  lemma UnionSize<T>(a: set<T>, b: set<T>)
    requires a !! b
    ensures |a + b| == |a| + |b|
  {
  }

  lemma {:induction false} SetOfSize(s: seq<Pubkey>)
    ensures |set x | x in s| <= |s|
  {
    if s != [] {
      var n := |s| - 1;
      SetOfSize(s[..n]);
      assert s == s[..n] + [s[n]];
      assert (set x | x in s) == (set x | x in s[..n]) + {s[n]};
    }
  }

  /** With a threshold above one half two ballots never both reach it. */
  lemma MajorityIsUnique(terms: Terms, events: seq<Event>, i: nat, j: nat)
    requires terms.thresholdBps > 5000
    requires i < |Run(terms, events).tallies| && j < |Run(terms, events).tallies|
    requires Reaches(terms, Run(terms, events).tallies[i].tally) && Reaches(terms, Run(terms, events).tallies[j].tally)
    ensures i == j
  {
    hide Run, Decided;
    EveryRunKeeps(terms, events);
    var box := Run(terms, events);
    var a, b := Backers(box.votes, i), Backers(box.votes, j);
    if i != j {
      var voters := set x | x in terms.voters;
      BackersDisjoint(terms, box.votes, i, j);
      UnionSize(a, b);
      SubsetSize(a + b, voters);
      SetOfSize(terms.voters);
      MoreThanHalf(terms, |a|);
      MoreThanHalf(terms, |b|);
      assert false;
    }
  }

  lemma BackersDisjoint(terms: Terms, votes: seq<OperatorVote>, i: nat, j: nat)
    requires OneVoteEach(terms, votes) && i != j
    ensures Backers(votes, i) !! Backers(votes, j)
    ensures Backers(votes, i) + Backers(votes, j) <= set x | x in terms.voters
  {
  }

  lemma MoreThanHalf(terms: Terms, tally: nat)
    requires terms.thresholdBps > 5000 && Reaches(terms, tally)
    ensures 2 * tally > |terms.voters|
  {
    var n := |terms.voters|;
    var q := tally * 10_000 / n;
    assert tally * 10_000 >= n * q;
    assert n * q >= n * 5001;
  }

  // ----- honest operators

  /** Every vote an honest operator casts is for `right`. */
  ghost predicate HonestFor(honest: set<Pubkey>, right: Ballot, events: seq<Event>)
  {
    forall i :: 0 <= i < |events| && events[i].CastVote? && events[i].operator in honest ==> events[i].ballot == right
  }

  /** Every standing vote of an honest operator is counted for `right`. */
  ghost predicate StandFor(honest: set<Pubkey>, right: Ballot, box: Box)
  {
    forall v :: v in box.votes && v.operator in honest ==>
      v.ballotIndex < |box.tallies| && box.tallies[v.ballotIndex].ballot == right
  }

  lemma StepStands(terms: Terms, honest: set<Pubkey>, right: Ballot, box: Box, e: Event)
    requires Invariant(terms, box) && StandFor(honest, right, box)
    requires e.CastVote? && e.operator in honest ==> e.ballot == right
    ensures StandFor(honest, right, Step(terms, box, e))
  {
    hide Decided, OneVoteEach, Backers, Reaches, AfterCast, MayCast, MayRemove, MayReset, MayBreakTie;
    if Accepts(terms, box, e) && e.CastVote? {
      AfterCastIs(terms, box, e);
    }
  }

  lemma {:induction false} RunStands(terms: Terms, honest: set<Pubkey>, right: Ballot, events: seq<Event>)
    requires HonestFor(honest, right, events)
    ensures StandFor(honest, right, Run(terms, events))
  {
    hide Step, Invariant;
    if events != [] {
      var n := |events| - 1;
      RunStands(terms, honest, right, events[..n]);
      EveryRunKeeps(terms, events[..n]);
      StepStands(terms, honest, right, Run(terms, events[..n]), events[n]);
    }
  }

  function Voters(terms: Terms): set<Pubkey> { set x | x in terms.voters }

  /** Safety: while the other voters cannot reach the threshold by themselves,
      the only ballot that can win, and be written as the result, is the one the
      honest operators vote for; the tie breaker aside. */
  lemma HonestBallotWins(terms: Terms, honest: set<Pubkey>, right: Ballot, events: seq<Event>)
    requires HonestFor(honest, right, events) && !Reaches(terms, |Voters(terms) - honest|)
    ensures var box := Run(terms, events);
            && (box.consensusSlot != 0 && !box.tieBreaker ==> box.winner == right)
            && (box.result.Some? && !box.result.value.1 ==> box.result.value.0 == right)
  {
    hide Run, Reaches, HonestFor;
    EveryRunKeeps(terms, events);
    RunStands(terms, honest, right, events);
    var box := Run(terms, events);
    if box.consensusSlot != 0 && !box.tieBreaker && box.winner != right {
      var i :| 0 <= i < |box.tallies| && box.tallies[i].ballot == box.winner && Reaches(terms, box.tallies[i].tally);
      assert Backers(box.votes, i) <= Voters(terms) - honest;
      SubsetSize(Backers(box.votes, i), Voters(terms) - honest);
      MoreReaches(terms, box.tallies[i].tally, |Voters(terms) - honest|);
    }
  }

  /** Consensus is on record whenever a ballot has enough standing votes. */
  lemma EnoughBackersDecide(terms: Terms, events: seq<Event>, i: nat)
    requires i < |Run(terms, events).tallies| && Reaches(terms, |Backers(Run(terms, events).votes, i)|)
    ensures Run(terms, events).consensusSlot != 0
  {
    hide Run, Reaches, Backers;
    EveryRunKeeps(terms, events);
  }
}
