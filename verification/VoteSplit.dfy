/** The editor that splits a vote three ways. */
module VoteSplit {
  import opened Bytes

  datatype Choice = For | Against | Abstain

  datatype Split = Split(yes: int, no: int, abstain: int) {
    function Get(o: Choice): int
    {
      match o
      case For => yes
      case Against => no
      case Abstain => abstain
    }

    function Set(o: Choice, v: int): (s: Split)
      ensures s.Get(o) == v && forall x :: x != o ==> s.Get(x) == Get(x)
    {
      match o
      case For => this.(yes := v)
      case Against => this.(no := v)
      case Abstain => this.(abstain := v)
    }

    function Total(): int { yes + no + abstain }

    /** What the editor keeps true: whole percentages that never exceed the whole. */
    predicate Balanced() { 0 <= yes && 0 <= no && 0 <= abstain && Total() <= 100 }
  }

  const DEFAULT: Split := Split(0, 0, 0)

  const OPTIONS: seq<Choice> := [For, Against, Abstain]

  /** The nearest percentage. */
  function Clamp(v: int): (r: int)
    ensures 0 <= r <= 100 && forall x :: 0 <= x <= 100 ==> Distance(v, r) <= Distance(v, x)
  {
    if v < 0 then 0 else if v > 100 then 100 else v
  }

  function Distance(a: int, b: int): nat { if a < b then b - a else a - b }

  /** `parsed` is what the text reads as, if it reads as a number. */
  function ParsePercentage(parsed: Option<int>): int { if parsed.None? then 0 else Clamp(parsed.value) }

  /** `after` is `before` with one share set and, if that is too much, the other
      shares cut down to exactly the whole, the earlier option first. */
  predicate Adjusts(before: Split, option: Choice, v: int, after: Split)
  {
    var edited := before.Set(option, v);
    && after.Get(option) == v
    && (edited.Total() <= 100 ==> after == edited)
    && (edited.Total() > 100 ==> after.Total() == 100)
    && (forall o :: o != option ==>
          after.Get(o) <= before.Get(o) && (after.Get(o) < before.Get(o) ==> 0 <= after.Get(o)))
    && (forall o, p :: o != option && p != option && Index(o) < Index(p) && after.Get(p) < before.Get(p) ==>
          after.Get(o) <= 0)
  }

  function Index(o: Choice): nat
  {
    match o
    case For => 0
    case Against => 1
    case Abstain => 2
  }

  /** The options before position `i`, but for the edited one, are used up; the
      rest is untouched. */
  predicate UsedUp(edited: Split, d: Split, option: Choice, i: nat)
  {
    forall o ::
      && (o == option || Index(o) >= i ==> d.Get(o) == edited.Get(o))
      && (o != option && Index(o) < i ==> d.Get(o) <= 0 && d.Get(o) <= edited.Get(o)
                                          && (d.Get(o) < edited.Get(o) ==> d.Get(o) == 0))
  }

  method AdjustDistribution(previous: Split, option: Choice, v: int) returns (d: Split)
    requires v <= 100
    ensures Adjusts(previous, option, v, d)
  {
    d := previous.Set(option, v);
    ghost var edited := d;
    var excess := d.Total() - 100;
    if excess <= 0 {
      return;
    }
    for i := 0 to |OPTIONS|
      invariant d.Total() - 100 == excess > 0
      invariant UsedUp(edited, d, option, i)
    {
      var current := OPTIONS[i];
      assert Index(current) == i;
      if current == option || d.Get(current) <= 0 {
        continue;
      }
      var reduction := if d.Get(current) < excess then d.Get(current) else excess;
      ghost var before := d;
      d := d.Set(current, d.Get(current) - reduction);
      TotalSet(before, current, d.Get(current));
      excess := excess - reduction;
      if excess <= 0 {
        return;
      }
    }
    Exhausted(edited, d, option);
  }

  lemma TotalSet(s: Split, o: Choice, v: int)
    ensures s.Set(o, v).Total() == s.Total() - s.Get(o) + v
  {
  }

  /** With everything else used up, one share alone is not too much. */
  lemma Exhausted(edited: Split, d: Split, option: Choice)
    requires UsedUp(edited, d, option, 3) && edited.Get(option) <= 100
    ensures d.Total() <= 100
  {
    assert Index(For) < 3 && Index(Against) < 3 && Index(Abstain) < 3;
  }

  // ----- the hook

  datatype Action = Edit(option: Choice, parsed: Option<int>) | QuickSelect(option: Choice) | Reset(next: Option<Split>)

  function Only(option: Choice): Split { DEFAULT.Set(option, 100) }

  class VoteDistribution {
    var distribution: Split

    constructor (initial: Split)
      ensures distribution == initial
    {
      distribution := initial;
    }

    method HandleOptionChange(option: Choice, parsed: Option<int>)
      modifies this
      ensures Adjusts(old(distribution), option, ParsePercentage(parsed), distribution)
    {
      distribution := AdjustDistribution(distribution, option, ParsePercentage(parsed));
    }

    method HandleQuickSelect(option: Choice)
      modifies this
      ensures distribution == Only(option) && distribution.Total() == 100
    {
      distribution := Split(if option == For then 100 else 0, if option == Against then 100 else 0,
                            if option == Abstain then 100 else 0);
    }

    method ResetDistribution(next: Option<Split>)
      modifies this
      ensures distribution == if next.Some? then next.value else DEFAULT
    {
      distribution := if next.Some? then next.value else DEFAULT;
    }
  }

  /** One action takes the editor from `before` to `after`. */
  predicate Acts(before: Split, a: Action, after: Split)
  {
    match a
    case Edit(option, parsed) => Adjusts(before, option, ParsePercentage(parsed), after)
    case QuickSelect(option) => after == Only(option)
    case Reset(next) => after == if next.Some? then next.value else DEFAULT
  }

  /** The states of a session, one after each action. */
  predicate Session(states: seq<Split>, actions: seq<Action>)
  {
    |states| == |actions| + 1 && forall i :: 0 <= i < |actions| ==> Acts(states[i], actions[i], states[i + 1])
  }

  /** A text that reads as a percentage sets the share to it; one that reads as a
      number below or above sets it to 0 or 100, and one that is no number to 0. */
  lemma EditSets(before: Split, option: Choice, parsed: Option<int>, after: Split)
    requires Acts(before, Edit(option, parsed), after)
    ensures parsed.Some? && 0 <= parsed.value <= 100 ==> after.Get(option) == parsed.value
    ensures parsed.Some? && parsed.value > 100 ==> after.Get(option) == 100
    ensures parsed.None? || parsed.value < 0 ==> after.Get(option) == 0
  {
  }

  /** A quick selection gives everything to one option. */
  lemma QuickSelectSets(before: Split, option: Choice, after: Split)
    requires Acts(before, QuickSelect(option), after)
    ensures after.Get(option) == 100 && forall o :: o != option ==> after.Get(o) == 0
  {
  }

  /** The outcome of an edit is determined. */
  lemma AdjustsUnique(before: Split, option: Choice, v: int, a: Split, b: Split)
    requires v <= 100 && Adjusts(before, option, v, a) && Adjusts(before, option, v, b)
    ensures a == b
  {
    var edited := before.Set(option, v);
    if edited.Total() > 100 {
      var o, p := if option == For then Against else For, if option == Abstain then Against else Abstain;
      assert Index(o) < Index(p);
      assert a.Total() == a.Get(option) + a.Get(o) + a.Get(p) && b.Total() == b.Get(option) + b.Get(o) + b.Get(p);
    }
  }

  function Min(a: int, b: int): int { if a < b then a else b }

  /** What an edit leads to, in closed form: the last of the other options keeps
      what the edit leaves it, and the one before gets the rest of what it had. */
  lemma EditIs(before: Split, option: Choice, v: int, after: Split)
    requires 0 <= v <= 100 && Adjusts(before, option, v, after)
    requires before.yes >= 0 && before.no >= 0 && before.abstain >= 0
    ensures var room := 100 - v;
            match option
            case For => && after.yes == v && after.abstain == Min(before.abstain, room)
                        && after.no == Min(before.no, room - after.abstain)
            case Against => && after.no == v && after.abstain == Min(before.abstain, room)
                            && after.yes == Min(before.yes, room - after.abstain)
            case Abstain => && after.abstain == v && after.no == Min(before.no, room)
                            && after.yes == Min(before.yes, room - after.no)
  {
    assert after.Get(For) == after.yes && after.Get(Against) == after.no && after.Get(Abstain) == after.abstain;
    assert before.Get(For) == before.yes && before.Get(Against) == before.no && before.Get(Abstain) == before.abstain;
    assert Index(For) < Index(Against) < Index(Abstain);
  }

  /** One edit brings any split with no negative share into balance. */
  lemma EditBalances(before: Split, option: Choice, v: int, after: Split)
    requires 0 <= v <= 100 && Adjusts(before, option, v, after)
    requires forall o :: o != option ==> before.Get(o) >= 0
    ensures after.Balanced()
  {
    assert after.Get(For) >= 0 && after.Get(Against) >= 0 && after.Get(Abstain) >= 0;
  }

  /** From a balanced start, every session stays balanced: every share between 0
      and 100, never more than the whole in total. */
  lemma {:induction false} SessionBalanced(states: seq<Split>, actions: seq<Action>)
    requires Session(states, actions) && states[0].Balanced()
    requires forall i :: 0 <= i < |actions| && actions[i].Reset? && actions[i].next.Some? ==>
               actions[i].next.value.Balanced()
    ensures forall i :: 0 <= i < |states| ==> states[i].Balanced()
  {
    if actions != [] {
      var n := |actions| - 1;
      SessionBalanced(states[..n + 1], actions[..n]);
      assert states[..n + 1][n].Balanced();
      assert Acts(states[n], actions[n], states[n + 1]);
      if actions[n].Edit? {
        var before := states[n];
        assert before.Get(For) >= 0 && before.Get(Against) >= 0 && before.Get(Abstain) >= 0;
        EditBalances(before, actions[n].option, ParsePercentage(actions[n].parsed), states[n + 1]);
      }
      forall i | 0 <= i < |states| ensures states[i].Balanced() {
        if i <= n {
          assert states[..n + 1][i] == states[i];
        }
      }
    }
  }
}
