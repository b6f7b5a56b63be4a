/** Exactly when the ballot box lets a vote in, and when enough votes therefore
    decide. */
module BallotBoxAdmission {
  import opened Bytes
  import opened Filtering
  import opened BallotBox
  import opened BallotBoxLaws

  // ----- when a vote is let in

  predicate HasTally(box: Box, ballot: Ballot) { TallyIndex(box.tallies, ballot) < |box.tallies| }

  /** A vote for the ballot finds a tally, or room for a new one. */
  predicate Admits(box: Box, ballot: Ballot) { HasTally(box, ballot) || |box.tallies| < MAX_BALLOT_TALLIES }

  /** Someone who has not voted is not among the at most 64 who have. */
  lemma RoomForTheVote(terms: Terms, box: Box, operator: Pubkey)
    requires Invariant(terms, box) && |terms.voters| <= MAX_OPERATOR_WHITELIST
    requires operator in terms.voters && !HasVoted(box, operator)
    ensures |box.votes| < MAX_OPERATOR_VOTES
    ensures forall i :: 0 <= i < |box.tallies| ==> box.tallies[i].tally < MAX_OPERATOR_VOTES
  {
    hide Tallied, Decided;
    var everyone := seq(|box.votes|, i requires 0 <= i < |box.votes| => box.votes[i].operator) + [operator];
    NotVoted(box.votes, operator);
    SetOfSize(terms.voters);
    DistinctWithin(everyone, Voters(terms));
    forall i | 0 <= i < |box.tallies| ensures box.tallies[i].tally < MAX_OPERATOR_VOTES {
      TallyIsBackers(box, i);
      assert Backers(box.votes, i) + {operator} <= Voters(terms);
      SubsetSize(Backers(box.votes, i) + {operator}, Voters(terms));
    }
  }

  lemma TallyIsBackers(box: Box, i: nat)
    requires Tallied(box.votes, box.tallies) && i < |box.tallies|
    ensures box.tallies[i].tally == |Backers(box.votes, i)|
  {
  }

  /** After any run a vote is accepted exactly when the operator may cast it and
      the ballot is admitted: neither the checked addition nor the vote list of
      64 ever refuses one. */
  lemma CastAcceptedIff(terms: Terms, events: seq<Event>, e: Event)
    requires e.CastVote? && |terms.voters| <= MAX_OPERATOR_WHITELIST
    ensures Accepts(terms, Run(terms, events), e)
            <==> MayCast(terms, Run(terms, events), e) && Admits(Run(terms, events), e.ballot)
  {
    hide Run, Invariant;
    EveryRunKeeps(terms, events);
    if MayCast(terms, Run(terms, events), e) {
      RoomForTheVote(terms, Run(terms, events), e.operator);
    }
  }

  // ----- when enough votes decide

  /** The votes of several operators for one ballot. */
  function Casts(operators: seq<Pubkey>, ballot: Ballot, slot: nat, time: int): (r: seq<Event>)
    ensures |r| == |operators|
  {
    seq(|operators|, i requires 0 <= i < |operators| => CastVote(operators[i], ballot, slot, time))
  }

  ghost predicate AllFresh(terms: Terms, box: Box, operators: seq<Pubkey>)
  {
    && (forall i, j :: 0 <= i < j < |operators| ==> operators[i] != operators[j])
    && (forall i :: 0 <= i < |operators| ==> operators[i] in terms.voters && !HasVoted(box, operators[i]))
  }

  /** The operator's standing vote is for `ballot`. */
  ghost predicate Backs(box: Box, operator: Pubkey, ballot: Ballot)
  {
    exists v :: v in box.votes && v.operator == operator && VoteIsFor(box, v, ballot)
  }

  predicate VoteIsFor(box: Box, v: OperatorVote, ballot: Ballot)
  {
    v.ballotIndex < |box.tallies| && box.tallies[v.ballotIndex].ballot == ballot
  }

  ghost predicate AllBack(box: Box, operators: seq<Pubkey>, ballot: Ballot)
  {
    forall i :: 0 <= i < |operators| ==> Backs(box, operators[i], ballot)
  }

  lemma VotedIff(votes: seq<OperatorVote>, operator: Pubkey)
    ensures VoteIndex(votes, operator) < |votes| <==> exists v :: v in votes && v.operator == operator
  {
    hide FirstIndex;
  }

  /** Short of a reset, a tally keeps its place and its ballot, and a new one only
      comes while there is room. */
  lemma TalliesStay(terms: Terms, box: Box, e: Event)
    requires !e.ResetBallotBox?
    ensures var next := Step(terms, box, e);
            && |box.tallies| <= |next.tallies|
            && (forall i :: 0 <= i < |box.tallies| ==> next.tallies[i].ballot == box.tallies[i].ballot)
            && (|box.tallies| < |next.tallies| ==> |box.tallies| < MAX_BALLOT_TALLIES)
  {
    hide Reaches, FirstIndex, MayCast, MayRemove, MayBreakTie, MayFinalize;
  }

  /** A vote stays unless its operator takes it back or the box is reset. */
  lemma VoteStays(terms: Terms, box: Box, e: Event, v: OperatorVote)
    requires !e.ResetBallotBox? && v in box.votes && (e.RemoveVote? ==> e.operator != v.operator)
    ensures v in Step(terms, box, e).votes
  {
    hide Reaches, FirstIndex, MayCast, MayRemove, MayBreakTie, MayFinalize;
    if e.RemoveVote? && Accepts(terms, box, e) {
      var at := VoteIndex(box.votes, e.operator);
      var j :| 0 <= j < |box.votes| && box.votes[j] == v;
      var rest := box.votes[..at] + box.votes[at + 1..];
      assert rest[if j < at then j else j - 1] == v;
    }
  }

  /** Nobody comes to have voted but by casting a vote. */
  lemma StillNotVoted(terms: Terms, box: Box, e: Event, operator: Pubkey)
    requires !HasVoted(box, operator) && (e.CastVote? ==> e.operator != operator)
    ensures !HasVoted(Step(terms, box, e), operator)
  {
    hide Reaches, FirstIndex, MayCast, MayRemove, MayBreakTie, MayFinalize, Counted;
    var next := Step(terms, box, e);
    VotedIff(box.votes, operator);
    VotedIff(next.votes, operator);
    if Accepts(terms, box, e) && e.CastVote? {
      AfterCastIs(terms, box, e);
    }
  }

  /** An accepted vote is a vote for its ballot. */
  lemma CastBacks(terms: Terms, box: Box, e: Event)
    requires Invariant(terms, box) && e.CastVote? && Accepts(terms, box, e)
    ensures Backs(Step(terms, box, e), e.operator, e.ballot)
  {
    hide Reaches, FirstIndex, MayCast, Decided, OneVoteEach, AfterCast, Counted;
    AfterCastIs(terms, box, e);
    CountedIs(box, e.ballot);
    CountedBallot(box, e.ballot);
    var next := Step(terms, box, e);
    var v := next.votes[|box.votes|];
    assert v in next.votes && VoteIsFor(next, v, e.ballot);
  }

  lemma CountedBallot(box: Box, ballot: Ballot)
    requires HasRoom(box, ballot)
    ensures var t := TallyIndex(box.tallies, ballot);
            t < |Counted(box, ballot)| && Counted(box, ballot)[t].ballot == ballot
  {
    hide FirstIndex;
  }

  // ----- operators who vote for one ballot and keep their votes

  /** A vote that the box would take from someone who has not voted. */
  predicate Timely(terms: Terms, e: Event, operator: Pubkey)
  {
    e.CastVote? && e.operator == operator && e.time < terms.expiry && e.slot > terms.snapshotSlot
  }

  /** Nothing in `e` goes back on a vote of `operator` for `ballot`. */
  predicate Steadfast(e: Event, operator: Pubkey, ballot: Ballot)
  {
    && !e.ResetBallotBox?
    && (e.RemoveVote? ==> e.operator != operator)
    && (e.CastVote? && e.operator == operator ==> e.ballot == ballot)
  }

  /** Behind the ballot once voted, and free to vote before. */
  ghost predicate Stands(box: Box, operator: Pubkey, ballot: Ballot, voted: bool)
  {
    if voted then Backs(box, operator, ballot) else !HasVoted(box, operator)
  }

  lemma BacksStays(terms: Terms, box: Box, e: Event, operator: Pubkey, ballot: Ballot)
    requires Backs(box, operator, ballot) && Steadfast(e, operator, ballot)
    ensures Backs(Step(terms, box, e), operator, ballot)
  {
    hide Step;
    var v :| v in box.votes && v.operator == operator && VoteIsFor(box, v, ballot);
    VoteStays(terms, box, e, v);
    TalliesStay(terms, box, e);
    assert VoteIsFor(Step(terms, box, e), v, ballot);
  }

  lemma StandsStep(terms: Terms, box: Box, e: Event, operator: Pubkey, ballot: Ballot, voted: bool)
    requires Invariant(terms, box) && |terms.voters| <= MAX_OPERATOR_WHITELIST && operator in terms.voters
    requires ballot.metaMerkleRoot != Zero() && Steadfast(e, operator, ballot) && Stands(box, operator, ballot, voted)
    requires Timely(terms, e, operator) ==> Admits(box, ballot)
    ensures Stands(Step(terms, box, e), operator, ballot, voted || Timely(terms, e, operator))
  {
    hide Invariant, Backs, HasRoom;
    if voted {
      BacksStays(terms, box, e, operator, ballot);
    } else if Timely(terms, e, operator) {
      RoomForTheVote(terms, box, operator);
      RoomIfAdmitted(box, ballot);
      CastBacks(terms, box, e);
    } else if !e.CastVote? || e.operator != operator {
      StillNotVoted(terms, box, e, operator);
    }
  }

  lemma RoomIfAdmitted(box: Box, ballot: Ballot)
    requires Admits(box, ballot) && |box.votes| < MAX_OPERATOR_VOTES
    requires forall i :: 0 <= i < |box.tallies| ==> box.tallies[i].tally < MAX_OPERATOR_VOTES
    ensures HasRoom(box, ballot)
  {
    hide FirstIndex;
  }

  /** Whether `operator` has cast a timely vote among the first `n` of `more`. */
  predicate HasCast(terms: Terms, more: seq<Event>, n: nat, operator: Pubkey)
    requires n <= |more|
  {
    exists i :: 0 <= i < n && Timely(terms, more[i], operator)
  }

  lemma {:induction false} StandsAfter(terms: Terms, events: seq<Event>, more: seq<Event>, n: nat, operator: Pubkey,
                                       ballot: Ballot)
    requires |terms.voters| <= MAX_OPERATOR_WHITELIST && operator in terms.voters && ballot.metaMerkleRoot != Zero()
    requires !HasVoted(Run(terms, events), operator) && n <= |more|
    requires forall i :: 0 <= i < n ==> Steadfast(more[i], operator, ballot)
    requires forall i :: 0 <= i < n && Timely(terms, more[i], operator) ==>
               Admits(Run(terms, events + more[..i]), ballot)
    ensures Stands(Run(terms, events + more[..n]), operator, ballot, HasCast(terms, more, n, operator))
  {
    hide Run, Step, Stands, Invariant, Admits, HasVoted, Timely, Steadfast;
    if n == 0 {
      assert events + more[..0] == events;
      NotYet(Run(terms, events), operator, ballot);
    } else {
      StandsAfter(terms, events, more, n - 1, operator, ballot);
      var before := events + more[..n - 1];
      EveryRunKeeps(terms, before);
      StandsStep(terms, Run(terms, before), more[n - 1], operator, ballot, HasCast(terms, more, n - 1, operator));
      assert events + more[..n] == before + [more[n - 1]];
      RunAppend(terms, before, more[n - 1]);
      assert HasCast(terms, more, n, operator)
             <==> HasCast(terms, more, n - 1, operator) || Timely(terms, more[n - 1], operator);
    }
  }

  lemma NotYet(box: Box, operator: Pubkey, ballot: Ballot)
    requires !HasVoted(box, operator)
    ensures Stands(box, operator, ballot, false)
  {
  }

  lemma HasTallyIff(box: Box, ballot: Ballot)
    ensures HasTally(box, ballot) <==> exists i :: 0 <= i < |box.tallies| && box.tallies[i].ballot == ballot
  {
    hide FirstIndex;
  }

  /** Short of a reset, a tallied ballot stays tallied and a shut out one stays out. */
  lemma {:induction false} AdmissionStays(terms: Terms, events: seq<Event>, more: seq<Event>)
    requires forall i :: 0 <= i < |more| ==> !more[i].ResetBallotBox?
    ensures forall ballot :: HasTally(Run(terms, events), ballot) ==> HasTally(Run(terms, events + more), ballot)
    ensures forall ballot :: !Admits(Run(terms, events), ballot) ==> !Admits(Run(terms, events + more), ballot)
  {
    hide Run, Step, HasTally;
    if more == [] {
      assert events + more == events;
    } else {
      var n := |more| - 1;
      AdmissionStays(terms, events, more[..n]);
      var before := Run(terms, events + more[..n]);
      assert events + more == events + more[..n] + [more[n]];
      RunAppend(terms, events + more[..n], more[n]);
      forall ballot
        ensures HasTally(before, ballot) ==> HasTally(Step(terms, before, more[n]), ballot)
        ensures !Admits(before, ballot) ==> !Admits(Step(terms, before, more[n]), ballot)
      {
        AdmissionStep(terms, before, more[n], ballot);
      }
    }
  }

  lemma AdmissionStep(terms: Terms, box: Box, e: Event, ballot: Ballot)
    requires !e.ResetBallotBox?
    ensures HasTally(box, ballot) ==> HasTally(Step(terms, box, e), ballot)
    ensures !Admits(box, ballot) ==> !Admits(Step(terms, box, e), ballot)
  {
    hide Step, HasTally;
    TalliesStay(terms, box, e);
    HasTallyIff(box, ballot);
    HasTallyIff(Step(terms, box, e), ballot);
  }

  /** Liveness over every continuation, with its exact condition.  Operators who
      have not voted each cast a timely vote for one ballot and keep it, whatever
      anyone else does in between, short of a reset.  Then they all end up behind
      the ballot if and only if it is admitted when the first of them votes; and
      if they are enough, consensus is on record. */
  lemma KeptVotesDecideIff(terms: Terms, events: seq<Event>, more: seq<Event>, operators: seq<Pubkey>, ballot: Ballot,
                           first: nat)
    requires |terms.voters| <= MAX_OPERATOR_WHITELIST && ballot.metaMerkleRoot != Zero()
    requires AllFresh(terms, Run(terms, events), operators)
    requires forall i, o :: 0 <= i < |more| && o in operators ==> Steadfast(more[i], o, ballot)
    requires forall o :: o in operators ==> HasCast(terms, more, |more|, o)
    requires first < |more| && exists o :: o in operators && Timely(terms, more[first], o)
    requires forall i, o :: 0 <= i < first && o in operators ==> !Timely(terms, more[i], o)
    ensures AllBack(Run(terms, events + more), operators, ballot)
            <==> Admits(Run(terms, events + more[..first]), ballot)
    ensures Admits(Run(terms, events + more[..first]), ballot) && Reaches(terms, |operators|)
            ==> Run(terms, events + more).consensusSlot != 0
  {
    hide Run, Invariant, Admits, HasVoted, Timely, Backs, Reaches, HasTally;
    var o1 :| o1 in operators && Timely(terms, more[first], o1);
    NoReset(more, o1, ballot);
    if Admits(Run(terms, events + more[..first]), ballot) {
      AdmittedFrom(terms, events, more, o1, ballot, first);
      forall i | 0 <= i < |operators| ensures Backs(Run(terms, events + more), operators[i], ballot) {
        var o := operators[i];
        assert o in operators && more[..|more|] == more;
        forall j | 0 <= j < |more| && Timely(terms, more[j], o) ensures Admits(Run(terms, events + more[..j]), ballot) {
          assert j >= first;
        }
        StandsAfter(terms, events, more, |more|, o, ballot);
      }
      if Reaches(terms, |operators|) {
        BackersDecide(terms, events + more, operators, ballot);
      }
    } else {
      assert events + more == events + more[..first] + more[first..];
      AdmissionStays(terms, events + more[..first], more[first..]);
      NotBehind(Run(terms, events + more), o1, ballot);
    }
  }

  lemma NoReset(more: seq<Event>, operator: Pubkey, ballot: Ballot)
    requires forall i :: 0 <= i < |more| ==> Steadfast(more[i], operator, ballot)
    ensures forall i :: 0 <= i < |more| ==> !more[i].ResetBallotBox?
  {
  }

  /** From the first of the votes on the ballot is admitted. */
  lemma AdmittedFrom(terms: Terms, events: seq<Event>, more: seq<Event>, operator: Pubkey, ballot: Ballot, first: nat)
    requires |terms.voters| <= MAX_OPERATOR_WHITELIST && operator in terms.voters && ballot.metaMerkleRoot != Zero()
    requires !HasVoted(Run(terms, events), operator)
    requires forall i :: 0 <= i < |more| ==> Steadfast(more[i], operator, ballot)
    requires first < |more| && Timely(terms, more[first], operator)
    requires forall i :: 0 <= i < first ==> !Timely(terms, more[i], operator)
    requires Admits(Run(terms, events + more[..first]), ballot)
    ensures forall i :: first <= i <= |more| ==> Admits(Run(terms, events + more[..i]), ballot)
  {
    hide Run, Invariant, Admits, HasVoted, Timely, Backs, HasTally;
    NoReset(more, operator, ballot);
    StandsAfter(terms, events, more, first + 1, operator, ballot);
    var box := Run(terms, events + more[..first + 1]);
    BacksHasTally(box, operator, ballot);
    forall i | first < i <= |more| ensures Admits(Run(terms, events + more[..i]), ballot) {
      assert events + more[..i] == events + more[..first + 1] + more[first + 1..i];
      AdmissionStays(terms, events + more[..first + 1], more[first + 1..i]);
      AdmitsIfTally(Run(terms, events + more[..i]), ballot);
    }
  }

  lemma AdmitsIfTally(box: Box, ballot: Ballot)
    requires HasTally(box, ballot)
    ensures Admits(box, ballot)
  {
  }

  lemma BacksHasTally(box: Box, operator: Pubkey, ballot: Ballot)
    requires Backs(box, operator, ballot)
    ensures HasTally(box, ballot)
  {
    hide HasTally;
    HasTallyIff(box, ballot);
  }

  lemma NotBehind(box: Box, operator: Pubkey, ballot: Ballot)
    requires !Admits(box, ballot)
    ensures !Backs(box, operator, ballot)
  {
    hide HasTally;
    HasTallyIff(box, ballot);
  }

  lemma BackersDecide(terms: Terms, events: seq<Event>, operators: seq<Pubkey>, ballot: Ballot)
    requires AllBack(Run(terms, events), operators, ballot) && operators != [] && Reaches(terms, |operators|)
    requires forall i, j :: 0 <= i < j < |operators| ==> operators[i] != operators[j]
    ensures Run(terms, events).consensusSlot != 0
  {
    hide Run, Reaches, Backs, HasTally, TallyIndex, Invariant, Backers;
    EveryRunKeeps(terms, events);
    var box := Run(terms, events);
    BacksHasTally(box, operators[0], ballot);
    var t := TallyIndex(box.tallies, ballot);
    HasTallyIs(box, ballot);
    forall i | 0 <= i < |operators| ensures operators[i] in Backers(box.votes, t) {
      BackersOf(terms, box, operators[i], ballot);
    }
    DistinctWithin(operators, Backers(box.votes, t));
    MoreReaches(terms, |operators|, |Backers(box.votes, t)|);
    EnoughBackersDecide(terms, events, t);
  }

  lemma HasTallyIs(box: Box, ballot: Ballot)
    ensures HasTally(box, ballot) <==> TallyIndex(box.tallies, ballot) < |box.tallies|
  {
  }

  lemma BackersOf(terms: Terms, box: Box, operator: Pubkey, ballot: Ballot)
    requires Invariant(terms, box) && Backs(box, operator, ballot)
    ensures operator in Backers(box.votes, TallyIndex(box.tallies, ballot))
  {
    hide Decided, FirstIndex, OneVoteEach;
    var v :| v in box.votes && v.operator == operator && VoteIsFor(box, v, ballot);
    assert v.ballotIndex == TallyIndex(box.tallies, ballot);
  }

  /** Votes for a ballot that is not admitted change nothing. */
  lemma {:induction false} CastsRefused(terms: Terms, events: seq<Event>, operators: seq<Pubkey>, ballot: Ballot,
                                        slot: nat, time: int, k: nat)
    requires k <= |operators| && !Admits(Run(terms, events), ballot)
    ensures Run(terms, events + Casts(operators, ballot, slot, time)[..k]) == Run(terms, events)
  {
    hide MayCast, Reaches;
    var casts := Casts(operators, ballot, slot, time);
    if k == 0 {
      assert events + casts[..0] == events;
    } else {
      CastsRefused(terms, events, operators, ballot, slot, time, k - 1);
      assert (events + casts[..k])[..|events| + k - 1] == events + casts[..k - 1];
    }
  }

  /** Liveness, with its exact condition: enough operators who have not voted,
      voting in time for one ballot, bring about consensus if and only if that
      ballot has a tally already or there is room for one. */
  lemma EnoughVotesDecideIff(terms: Terms, events: seq<Event>, operators: seq<Pubkey>, ballot: Ballot, slot: nat,
                             time: int)
    requires |terms.voters| <= MAX_OPERATOR_WHITELIST && operators != [] && Reaches(terms, |operators|)
    requires AllFresh(terms, Run(terms, events), operators) && Run(terms, events).consensusSlot == 0
    requires time < terms.expiry && slot > terms.snapshotSlot && ballot.metaMerkleRoot != Zero()
    ensures Run(terms, events + Casts(operators, ballot, slot, time)).consensusSlot != 0
            <==> Admits(Run(terms, events), ballot)
  {
    hide Run, Reaches, HasVoted, Admits, AllBack;
    var casts := Casts(operators, ballot, slot, time);
    assert casts[..0] == [] && events + casts[..0] == events && casts[..|operators|] == casts;
    if Admits(Run(terms, events), ballot) {
      assert Timely(terms, casts[0], operators[0]);
      forall o | o in operators ensures HasCast(terms, casts, |casts|, o) {
        var i :| 0 <= i < |operators| && operators[i] == o;
        assert Timely(terms, casts[i], o);
      }
      KeptVotesDecideIff(terms, events, casts, operators, ballot, 0);
    } else {
      CastsRefused(terms, events, operators, ballot, slot, time, |operators|);
    }
  }

  lemma {:induction false} DistinctWithin(s: seq<Pubkey>, whole: set<Pubkey>)
    requires forall i, j :: 0 <= i < j < |s| ==> s[i] != s[j]
    requires forall i :: 0 <= i < |s| ==> s[i] in whole
    ensures |s| <= |whole|
  {
    if s != [] {
      var n := |s| - 1;
      DistinctWithin(s[..n], whole - {s[n]});
    }
  }

  // ----- a box without room

  /** Sixty-four ballots that differ. */
  function Numbered(i: nat): Ballot
    requires i < 0x100
  {
    Ballot([1, i] + seq(30, _ => 0), Zero())
  }

  /** One operator votes for each of the first `n` numbered ballots and takes the
      vote back each time. */
  function Wavering(operator: Pubkey, n: nat, slot: nat, time: int): seq<Event>
    requires n <= MAX_BALLOT_TALLIES
  {
    if n == 0 then []
    else Wavering(operator, n - 1, slot, time)
         + [CastVote(operator, Numbered(n - 1), slot, time)] + [RemoveVote(operator, time)]
  }

  /** The box with `n` tallies at zero. */
  function Worn(n: nat): Box
    requires n <= MAX_BALLOT_TALLIES
  {
    Opened().(tallies := seq(n, i requires 0 <= i < n => BallotTally(i, Numbered(i), 0)))
  }

  lemma NumberedDiffer(i: nat, j: nat)
    requires i < j < 0x100
    ensures Numbered(i) != Numbered(j) && Numbered(i).metaMerkleRoot != Zero()
  {
    assert Numbered(i).metaMerkleRoot[1] == i && Numbered(j).metaMerkleRoot[1] == j;
    assert Numbered(i).metaMerkleRoot[0] == 1 && Zero()[0] == 0;
  }

  lemma WornStep(terms: Terms, operator: Pubkey, n: nat, slot: nat, time: int)
    requires n < MAX_BALLOT_TALLIES && operator in terms.voters && !Reaches(terms, 1)
    requires time < terms.expiry && slot > terms.snapshotSlot
    ensures var cast := CastVote(operator, Numbered(n), slot, time);
            Step(terms, Step(terms, Worn(n), cast), RemoveVote(operator, time)) == Worn(n + 1)
  {
    hide Reaches;
    var box, cast := Worn(n), CastVote(operator, Numbered(n), slot, time);
    NumberedDiffer(n, n + 1);
    forall j | 0 <= j < n ensures box.tallies[j].ballot != Numbered(n) {
      NumberedDiffer(j, n);
    }
    assert TallyIndex(box.tallies, Numbered(n)) == n;
    var next := Step(terms, box, cast);
    assert next.votes == [OperatorVote(operator, slot, n)];
    assert VoteIndex(next.votes, operator) == 0;
    var last := Step(terms, next, RemoveVote(operator, time));
    assert last.votes == [];
    assert last.tallies == Worn(n + 1).tallies;
  }

  lemma {:induction false} WaveringWears(terms: Terms, operator: Pubkey, n: nat, slot: nat, time: int)
    requires n <= MAX_BALLOT_TALLIES && operator in terms.voters && !Reaches(terms, 1)
    requires time < terms.expiry && slot > terms.snapshotSlot
    ensures Run(terms, Wavering(operator, n, slot, time)) == Worn(n)
  {
    hide Step, Reaches;
    if n > 0 {
      WaveringWears(terms, operator, n - 1, slot, time);
      WornStep(terms, operator, n - 1, slot, time);
      var events := Wavering(operator, n - 1, slot, time);
      var cast := CastVote(operator, Numbered(n - 1), slot, time);
      assert (events + [cast])[..|events|] == events;
      assert (events + [cast] + [RemoveVote(operator, time)])[..|events| + 1] == events + [cast];
    }
  }

  /** Since emptied tallies are kept, a single operator short of the threshold can
      use all of them up: then no one's vote for a further ballot is accepted, and
      no number of them decides, until the administrator resets the box, which is
      possible just then. */
  lemma TalliesCanRunOut(terms: Terms, operator: Pubkey, slot: nat, time: int, n: nat, e: Event, operators: seq<Pubkey>)
    requires operator in terms.voters && !Reaches(terms, 1) && time < terms.expiry && slot > terms.snapshotSlot
    requires n == MAX_BALLOT_TALLIES && e.CastVote? && MayCast(terms, Opened(), e)
    requires forall i :: 0 <= i < n ==> e.ballot != Numbered(i)
    ensures var full := Wavering(operator, n, slot, time);
            && MayCast(terms, Run(terms, full), e) && !Accepts(terms, Run(terms, full), e)
            && Run(terms, full + Casts(operators, e.ballot, e.slot, e.time)).consensusSlot == 0
            && Run(terms, full + [ResetBallotBox(true, e.time)]) == Opened()
            && Accepts(terms, Run(terms, full + [ResetBallotBox(true, e.time)]), e)
  {
    hide Reaches, Run, Wavering;
    var full, casts := Wavering(operator, n, slot, time), Casts(operators, e.ballot, e.slot, e.time);
    WaveringWears(terms, operator, n, slot, time);
    assert !HasTally(Worn(n), e.ballot);
    CastsRefused(terms, full, operators, e.ballot, e.slot, e.time, |operators|);
    assert casts[..|operators|] == casts;
    RunAppend(terms, full, ResetBallotBox(true, e.time));
  }

  lemma RunAppend(terms: Terms, events: seq<Event>, e: Event)
    ensures Run(terms, events + [e]) == Step(terms, Run(terms, events), e)
  {
    assert (events + [e])[..|events|] == events;
  }
}
