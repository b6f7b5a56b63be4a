/** The verifier whitelist: the cron job scores, demotes and de-duplicates, the
    router selects; together they hand out one routing ticket per fresh origin. */
module Routing {
  import opened Bytes
  import opened Sorting
  import opened Filtering

  /** One polled verifier; with an error if the poll recorded one. */
  datatype LogEntry = LogEntry(name: string, domain: string, slot: u64, merkleRoot: string, snapshotHash: string,
                               error: Option<string>)

  /** The winning ballot on chain, in base58. */
  datatype Ballot = Ballot(metaMerkleRoot: string, snapshotHash: string)

  /** What the chain answered for one entry. */
  datatype Fetched = Winning(ballot: Ballot) | FetchFailed(message: string)

  datatype RowStatus = Verified | Mismatch | Error | Stale

  /** What the reason text of a row is made from. */
  datatype Reason =
    | Text(message: string)
    | Differs(merkleMatch: bool, snapshotMatch: bool)
    | Lagging(slot: nat, lag: nat, freshest: nat, limit: nat)

  datatype Row = Row(name: string, domain: string, slot: u64, status: RowStatus, reason: Option<Reason>)

  function CanonicalDomain(domain: string): string
  {
    if domain != "" && domain[|domain| - 1] == '/' then domain else domain + "/"
  }

  /** Nothing but one missing slash at the end is overlooked. */
  predicate SlashAdded(a: string, b: string)
  {
    (a == "" || a[|a| - 1] != '/') && b == a + "/"
  }

  /** Two domains are one origin exactly when they are equal, or one is the other
      with the slash that it lacks. */
  lemma SameOriginIff(a: string, b: string)
    ensures CanonicalDomain(a) == CanonicalDomain(b) <==> a == b || SlashAdded(a, b) || SlashAdded(b, a)
  {
    var x, y := a + "/", b + "/";
    assert x[..|a|] == a && y[..|b|] == b && x[|a|] == '/' && y[|b|] == '/';
  }

  function OriginOf(r: Row): string { CanonicalDomain(r.domain) }

  function IsOk(r: Row): bool { r.status == Verified }

  // ----- scoring

  predicate Verifies(e: LogEntry, f: Fetched)
  {
    && e.error.None? && f.Winning?
    && f.ballot.metaMerkleRoot == e.merkleRoot && f.ballot.snapshotHash == e.snapshotHash
  }

  /** Verified exactly when both hashes match; otherwise with the reason why not. */
  function Score(e: LogEntry, f: Fetched): Row
  {
    if Verifies(e, f) then Row(e.name, e.domain, e.slot, Verified, None)
    else if e.error.Some? then Row(e.name, e.domain, e.slot, Error, Some(Text(e.error.value)))
    else if f.FetchFailed? then Row(e.name, e.domain, e.slot, Error, Some(Text(f.message)))
    else Row(e.name, e.domain, e.slot, Mismatch,
             Some(Differs(f.ballot.metaMerkleRoot == e.merkleRoot, f.ballot.snapshotHash == e.snapshotHash)))
  }

  /** An entry with an error, or without an answer, is an error; otherwise it is
      verified exactly when the chain names the same ballot. */
  lemma ScoreIs(e: LogEntry, f: Fetched)
    ensures var r := Score(e, f);
            && r.name == e.name && r.domain == e.domain && r.slot == e.slot
            && (r.status == Error <==> e.error.Some? || f.FetchFailed?)
            && (r.status == Verified
                <==> e.error.None? && f == Winning(Ballot(e.merkleRoot, e.snapshotHash)) && r.reason.None?)
            && r.status != Stale
  {
  }

  /** `slot` is the highest slot of a verified row, or 0. */
  ghost predicate Freshest(rows: seq<Row>, slot: nat)
  {
    && (forall i :: 0 <= i < |rows| && IsOk(rows[i]) ==> rows[i].slot <= slot)
    && (slot == 0 || exists i :: 0 <= i < |rows| && IsOk(rows[i]) && rows[i].slot == slot)
  }

  /** The scoring loop; `fetched[i]` is what the chain answered for entry `i`. */
  method ScoreEntries(entries: seq<LogEntry>, fetched: seq<Fetched>) returns (rows: seq<Row>, chosen: u64)
    requires |fetched| == |entries|
    ensures |rows| == |entries| && forall i :: 0 <= i < |entries| ==> rows[i] == Score(entries[i], fetched[i])
    ensures Freshest(rows, chosen)
  {
    rows, chosen := [], 0;
    for i := 0 to |entries|
      invariant |rows| == i && forall j :: 0 <= j < i ==> rows[j] == Score(entries[j], fetched[j])
      invariant Freshest(rows, chosen)
    {
      var e := entries[i];
      ghost var before := rows;
      if e.error.Some? {
        rows := rows + [Row(e.name, e.domain, e.slot, Error, Some(Text(e.error.value)))];
      } else if fetched[i].FetchFailed? {
        rows := rows + [Row(e.name, e.domain, e.slot, Error, Some(Text(fetched[i].message)))];
      } else {
        var merkleMatch := fetched[i].ballot.metaMerkleRoot == e.merkleRoot;
        var snapshotMatch := fetched[i].ballot.snapshotHash == e.snapshotHash;
        var status := if merkleMatch && snapshotMatch then Verified else Mismatch;
        var reason := if status == Verified then None else Some(Differs(merkleMatch, snapshotMatch));
        if status == Verified && e.slot > chosen {
          chosen := e.slot;
        }
        rows := rows + [Row(e.name, e.domain, e.slot, status, reason)];
      }
      assert rows[..i] == before && rows[i] == Score(e, fetched[i]);
    }
  }

  // ----- demotion

  function Demoted(freshest: nat, maxLag: nat): Row -> Row
  {
    (r: Row) => if IsOk(r) && freshest > r.slot + maxLag
                 then r.(status := Stale, reason := Some(Lagging(r.slot, freshest - r.slot, freshest, maxLag))) else r
  }

  method DemoteStaleVerifiers(rows: array<Row>, freshest: u64, maxLag: u64)
    modifies rows
    ensures rows[..] == Map(Demoted(freshest, maxLag), old(rows[..]))
  {
    for i := 0 to rows.Length
      invariant forall j :: 0 <= j < i ==> rows[j] == Demoted(freshest, maxLag)(old(rows[j]))
      invariant forall j :: i <= j < rows.Length ==> rows[j] == old(rows[j])
    {
      if rows[i].status != Verified {
        continue;
      }
      var lag := if freshest >= rows[i].slot then freshest - rows[i].slot else 0;
      if lag > maxLag {
        rows[i] := rows[i].(status := Stale, reason := Some(Lagging(rows[i].slot, lag, freshest, maxLag)));
      }
    }
  }

  // ----- de-duplication

  /** First row that satisfies `p`. */
  function First(p: Row -> bool, rows: seq<Row>): Option<Row>
  {
    if rows == [] then None
    else
      var front := First(p, rows[..|rows| - 1]);
      if front.Some? then front else if p(rows[|rows| - 1]) then Some(rows[|rows| - 1]) else None
  }

  /** Each value once, where it is first seen. */
  function Firsts<T(==)>(s: seq<T>): seq<T>
  {
    if s == [] then []
    else Firsts(s[..|s| - 1]) + if s[|s| - 1] in s[..|s| - 1] then [] else [s[|s| - 1]]
  }

  function From(origin: string): Row -> bool { (r: Row) => OriginOf(r) == origin }

  function OkFrom(origin: string): Row -> bool { (r: Row) => IsOk(r) && OriginOf(r) == origin }

  /** The first verified row of an origin, or else its first row. */
  function Best(rows: seq<Row>, origin: string): Option<Row>
  {
    if First(OkFrom(origin), rows).Some? then First(OkFrom(origin), rows) else First(From(origin), rows)
  }

  /** One row for each origin, in first-seen order, and the best one. */
  ghost predicate IsDeduped(rows: seq<Row>, deduped: seq<Row>)
  {
    && Map(OriginOf, deduped) == Firsts(Map(OriginOf, rows))
    && forall j :: 0 <= j < |deduped| ==> Best(rows, OriginOf(deduped[j])) == Some(deduped[j])
  }

  ghost predicate IndexOf(deduped: seq<Row>, index: map<string, nat>)
  {
    && (forall j :: 0 <= j < |deduped| ==> OriginOf(deduped[j]) in index && index[OriginOf(deduped[j])] == j)
    && (forall o :: o in index ==> index[o] < |deduped| && OriginOf(deduped[index[o]]) == o)
  }

  method DedupeVerifiersByDomain(rows: seq<Row>) returns (deduped: seq<Row>)
    ensures IsDeduped(rows, deduped)
  {
    hide IsDeduped, CanonicalDomain;
    deduped := [];
    var index: map<string, nat> := map[];
    DedupedNothing(rows);
    for i := 0 to |rows|
      invariant IsDeduped(rows[..i], deduped)
      invariant IndexOf(deduped, index)
    {
      var row := rows[i];
      var key := CanonicalDomain(row.domain);
      DedupeStep(rows[..i], deduped, index, row);
      assert rows[..i + 1] == rows[..i] + [row];
      if key !in index {
        index := index[key := |deduped|];
        deduped := deduped + [row];
      } else {
        var idx := index[key];
        if deduped[idx].status != Verified && row.status == Verified {
          deduped := deduped[idx := row];
        }
      }
    }
    assert rows[..|rows|] == rows;
  }

  lemma DedupedNothing(rows: seq<Row>)
    ensures IsDeduped(rows[..0], [])
  {
  }

  lemma {:induction false} FirstsMembers<T(!new)>(s: seq<T>)
    ensures forall x :: x in Firsts(s) <==> x in s
    ensures Distinct(Firsts(s))
  {
    if s != [] {
      var n := |s| - 1;
      FirstsMembers(s[..n]);
      assert s == s[..n] + [s[n]];
    }
  }

  lemma {:induction false} FirstIs(p: Row -> bool, rows: seq<Row>)
    ensures First(p, rows).Some? <==> exists r :: r in rows && p(r)
    ensures First(p, rows).Some? ==> First(p, rows).value in rows && p(First(p, rows).value)
  {
    if rows != [] {
      var n := |rows| - 1;
      FirstIs(p, rows[..n]);
      assert rows == rows[..n] + [rows[n]];
    }
  }

  lemma FirstAppend(p: Row -> bool, rows: seq<Row>, row: Row)
    ensures First(p, rows + [row])
            == if First(p, rows).Some? then First(p, rows) else if p(row) then Some(row) else None
  {
    assert (rows + [row])[..|rows|] == rows;
  }

  /** What one more row does to the best of each origin. */
  lemma BestAppend(rows: seq<Row>, row: Row, origin: string)
    ensures Best(rows + [row], origin)
            == if OriginOf(row) != origin then Best(rows, origin)
               else if Best(rows, origin).None? || (!IsOk(Best(rows, origin).value) && IsOk(row)) then Some(row)
               else Best(rows, origin)
  {
    hide First, CanonicalDomain;
    FirstAppend(OkFrom(origin), rows, row);
    FirstAppend(From(origin), rows, row);
    FirstIs(OkFrom(origin), rows);
    FirstIs(From(origin), rows);
  }

  lemma BestIs(rows: seq<Row>, origin: string)
    ensures Best(rows, origin).Some? <==> origin in Map(OriginOf, rows)
    ensures Best(rows, origin).Some? ==> OriginOf(Best(rows, origin).value) == origin
  {
    hide First, CanonicalDomain;
    FirstIs(OkFrom(origin), rows);
    FirstIs(From(origin), rows);
    if origin in Map(OriginOf, rows) {
      var i :| 0 <= i < |rows| && Map(OriginOf, rows)[i] == origin;
      assert rows[i] in rows && From(origin)(rows[i]);
    }
    if Best(rows, origin).Some? {
      var i :| 0 <= i < |rows| && rows[i] == Best(rows, origin).value;
      assert Map(OriginOf, rows)[i] == origin;
    }
  }

  lemma DedupeStep(rows: seq<Row>, deduped: seq<Row>, index: map<string, nat>, row: Row)
    requires IsDeduped(rows, deduped) && IndexOf(deduped, index)
    ensures OriginOf(row) in index ==> index[OriginOf(row)] < |deduped|
    ensures var next := if OriginOf(row) !in index then deduped + [row]
                        else if !IsOk(deduped[index[OriginOf(row)]]) && IsOk(row)
                        then deduped[index[OriginOf(row)] := row]
                        else deduped;
            && IsDeduped(rows + [row], next)
            && IndexOf(next, if OriginOf(row) in index then index else index[OriginOf(row) := |deduped|])
  {
    hide Best, Firsts, CanonicalDomain;
    var o := OriginOf(row);
    var origins := Map(OriginOf, rows);
    MapAppend(OriginOf, rows, row);
    FirstsAppend(origins, o);
    FirstsMembers(origins);
    BestIs(rows, o);
    SeenIffIndexed(rows, deduped, index, o);
    forall origin ensures Best(rows + [row], origin)
            == if o != origin then Best(rows, origin)
               else if Best(rows, origin).None? || (!IsOk(Best(rows, origin).value) && IsOk(row)) then Some(row)
               else Best(rows, origin)
    {
      BestAppend(rows, row, origin);
    }
    if o !in index {
      MapAppend(OriginOf, deduped, row);
    } else {
      assert Best(rows, OriginOf(deduped[index[o]])) == Some(deduped[index[o]]);
      assert Map(OriginOf, deduped[index[o] := row]) == Map(OriginOf, deduped);
    }
  }

  lemma FirstsAppend<T>(s: seq<T>, x: T)
    ensures Firsts(s + [x]) == Firsts(s) + if x in s then [] else [x]
  {
    assert (s + [x])[..|s|] == s;
  }

  lemma SeenIffIndexed(rows: seq<Row>, deduped: seq<Row>, index: map<string, nat>, o: string)
    requires IsDeduped(rows, deduped) && IndexOf(deduped, index)
    ensures o in index <==> o in Map(OriginOf, rows)
  {
    hide Best, Firsts, CanonicalDomain;
    FirstsMembers(Map(OriginOf, rows));
    if o in index {
      assert Map(OriginOf, deduped)[index[o]] == o;
    }
    if o in Map(OriginOf, rows) {
      var j :| 0 <= j < |Map(OriginOf, deduped)| && Map(OriginOf, deduped)[j] == o;
      assert OriginOf(deduped[j]) == o;
    }
  }

  // ----- selection

  /** One row for each origin that has a verified row: its first. */
  ghost predicate IsSelection(rows: seq<Row>, selected: seq<Row>)
  {
    && Map(OriginOf, selected) == Firsts(Map(OriginOf, Filter(IsOk, rows)))
    && forall j :: 0 <= j < |selected| ==> First(OkFrom(OriginOf(selected[j])), rows) == Some(selected[j])
  }

  method SelectRoutableVerifiers(rows: seq<Row>) returns (selected: seq<Row>)
    ensures IsSelection(rows, selected)
  {
    hide IsSelection, CanonicalDomain;
    selected := [];
    var seen: set<string> := {};
    SelectedNothing(rows);
    for i := 0 to |rows|
      invariant IsSelection(rows[..i], selected)
      invariant forall o :: o in seen <==> o in Map(OriginOf, selected)
    {
      var row := rows[i];
      SelectStep(rows[..i], selected, row);
      assert rows[..i + 1] == rows[..i] + [row];
      if row.status == Verified && CanonicalDomain(row.domain) !in seen {
        seen := seen + {CanonicalDomain(row.domain)};
        MapAppend(OriginOf, selected, row);
        selected := selected + [row];
      }
    }
    assert rows[..|rows|] == rows;
  }

  lemma SelectedNothing(rows: seq<Row>)
    ensures IsSelection(rows[..0], [])
  {
  }

  lemma SelectStep(rows: seq<Row>, selected: seq<Row>, row: Row)
    requires IsSelection(rows, selected)
    ensures IsSelection(rows + [row],
                        if IsOk(row) && OriginOf(row) !in Map(OriginOf, selected) then selected + [row] else selected)
  {
    hide First, Firsts, Filter, CanonicalDomain;
    var o := OriginOf(row);
    var origins := Map(OriginOf, Filter(IsOk, rows));
    FilterAppend(IsOk, rows, row);
    FirstsMembers(origins);
    forall origin ensures First(OkFrom(origin), rows + [row])
      == if First(OkFrom(origin), rows).Some? then First(OkFrom(origin), rows)
         else if OkFrom(origin)(row) then Some(row) else None
    {
      FirstAppend(OkFrom(origin), rows, row);
    }
    var next := if IsOk(row) && o !in Map(OriginOf, selected) then selected + [row] else selected;
    if IsOk(row) {
      MapAppend(OriginOf, Filter(IsOk, rows), row);
      FirstsAppend(origins, o);
      MapAppend(OriginOf, selected, row);
      assert Firsts(origins) + [] == Firsts(origins);
    } else {
      assert Filter(IsOk, rows) + [] == Filter(IsOk, rows);
    }
    OkOrigins(rows, o);
    forall j | 0 <= j < |next| ensures First(OkFrom(OriginOf(next[j])), rows + [row]) == Some(next[j]) {
      if j < |selected| {
        assert First(OkFrom(OriginOf(selected[j])), rows) == Some(selected[j]);
      }
    }
  }

  lemma OkOrigins(rows: seq<Row>, origin: string)
    ensures origin in Map(OriginOf, Filter(IsOk, rows)) <==> First(OkFrom(origin), rows).Some?
  {
    hide First, Filter, CanonicalDomain;
    var ok := Filter(IsOk, rows);
    FilterMembers(IsOk, rows);
    FirstIs(OkFrom(origin), rows);
    if origin in Map(OriginOf, ok) {
      var i :| 0 <= i < |ok| && Map(OriginOf, ok)[i] == origin;
      assert ok[i] in ok && OkFrom(origin)(ok[i]);
    }
    if First(OkFrom(origin), rows).Some? {
      var r := First(OkFrom(origin), rows).value;
      var i :| 0 <= i < |ok| && ok[i] == r;
      assert Map(OriginOf, ok)[i] == origin;
    }
  }

  // ----- the pipeline

  /** Selecting after de-duplication gives the same rows as selecting directly. */
  lemma DedupeKeepsSelection(rows: seq<Row>, deduped: seq<Row>, after: seq<Row>, direct: seq<Row>)
    requires IsDeduped(rows, deduped) && IsSelection(deduped, after) && IsSelection(rows, direct)
    ensures multiset(after) == multiset(direct)
  {
    hide Best, First, Firsts, Filter, CanonicalDomain, IsDeduped;
    SelectionDistinct(deduped, after);
    SelectionDistinct(rows, direct);
    forall r ensures r in after <==> r in direct {
      SelectedIff(deduped, after, r);
      SelectedIff(rows, direct, r);
      DedupedFirst(rows, deduped, OriginOf(r));
    }
    SameDistinct(after, direct);
  }

  lemma SelectionDistinct(rows: seq<Row>, selected: seq<Row>)
    requires IsSelection(rows, selected)
    ensures Distinct(selected)
    ensures forall i, j :: 0 <= i < j < |selected| ==> OriginOf(selected[i]) != OriginOf(selected[j])
  {
    hide First, Firsts, Filter, CanonicalDomain;
    FirstsMembers(Map(OriginOf, Filter(IsOk, rows)));
    forall i, j | 0 <= i < j < |selected| ensures OriginOf(selected[i]) != OriginOf(selected[j]) {
      assert Map(OriginOf, selected)[i] != Map(OriginOf, selected)[j];
    }
  }

  /** A row is selected exactly when it is the first verified row of its origin. */
  lemma SelectedIff(rows: seq<Row>, selected: seq<Row>, r: Row)
    requires IsSelection(rows, selected)
    ensures r in selected <==> First(OkFrom(OriginOf(r)), rows) == Some(r)
  {
    hide First, Firsts, Filter, CanonicalDomain;
    FirstsMembers(Map(OriginOf, Filter(IsOk, rows)));
    OkOrigins(rows, OriginOf(r));
    if First(OkFrom(OriginOf(r)), rows) == Some(r) {
      var j :| 0 <= j < |Map(OriginOf, selected)| && Map(OriginOf, selected)[j] == OriginOf(r);
      assert OriginOf(selected[j]) == OriginOf(r);
    }
  }

  /** De-duplication keeps the first verified row of every origin. */
  lemma DedupedFirst(rows: seq<Row>, deduped: seq<Row>, origin: string)
    requires IsDeduped(rows, deduped)
    ensures First(OkFrom(origin), deduped) == First(OkFrom(origin), rows)
  {
    hide First, Firsts, CanonicalDomain;
    FirstIs(OkFrom(origin), deduped);
    FirstIs(OkFrom(origin), rows);
    FirstsMembers(Map(OriginOf, rows));
    BestIs(rows, origin);
    if First(OkFrom(origin), deduped).Some? {
      var r := First(OkFrom(origin), deduped).value;
      var j :| 0 <= j < |deduped| && deduped[j] == r;
      assert Best(rows, OriginOf(deduped[j])) == Some(r);
      FirstIs(From(origin), rows);
    }
    if First(OkFrom(origin), rows).Some? {
      var j :| 0 <= j < |Map(OriginOf, deduped)| && Map(OriginOf, deduped)[j] == origin;
      assert OriginOf(deduped[j]) == origin && Best(rows, OriginOf(deduped[j])) == Some(deduped[j]);
      assert deduped[j] in deduped && OkFrom(origin)(deduped[j]);
    }
  }

  /** An entry that matches the chain and is within `maxLag` slots of the newest
      one that does. */
  ghost predicate Fresh(entries: seq<LogEntry>, fetched: seq<Fetched>, maxLag: nat, i: nat)
    requires |fetched| == |entries| && i < |entries|
  {
    && Verifies(entries[i], fetched[i])
    && forall j :: 0 <= j < |entries| && Verifies(entries[j], fetched[j]) ==>
         entries[j].slot <= entries[i].slot + maxLag
  }

  /** What the router may pick from: one row for each origin with a fresh entry,
      and that row is the first fresh entry of the origin. */
  ghost predicate OneTicketPerFreshOrigin(entries: seq<LogEntry>, fetched: seq<Fetched>, maxLag: nat,
                                          routable: seq<Row>)
    requires |fetched| == |entries|
  {
    && (forall i, j :: 0 <= i < j < |routable| ==> OriginOf(routable[i]) != OriginOf(routable[j]))
    && (forall r :: r in routable ==>
          exists i :: FirstFresh(entries, fetched, maxLag, i) && r == Score(entries[i], fetched[i]))
    && (forall i :: FirstFresh(entries, fetched, maxLag, i) ==> Score(entries[i], fetched[i]) in routable)
  }

  ghost predicate FirstFresh(entries: seq<LogEntry>, fetched: seq<Fetched>, maxLag: nat, i: int)
    requires |fetched| == |entries|
  {
    && 0 <= i < |entries| && Fresh(entries, fetched, maxLag, i)
    && forall j :: 0 <= j < i && CanonicalDomain(entries[j].domain) == CanonicalDomain(entries[i].domain)
                   ==> !Fresh(entries, fetched, maxLag, j)
  }

  /** The first match, by its position. */
  lemma {:induction false} FirstPosition(p: Row -> bool, rows: seq<Row>) returns (i: nat)
    requires First(p, rows).Some?
    ensures i < |rows| && p(rows[i]) && First(p, rows) == Some(rows[i])
    ensures forall j :: 0 <= j < i ==> !p(rows[j])
  {
    var n := |rows| - 1;
    FirstIs(p, rows[..n]);
    if First(p, rows[..n]).Some? {
      i := FirstPosition(p, rows[..n]);
    } else {
      i := n;
      forall j | 0 <= j < n ensures !p(rows[j]) {
        assert rows[j] in rows[..n];
      }
    }
  }

  lemma FirstPositionIs(p: Row -> bool, rows: seq<Row>, i: nat)
    requires i < |rows| && p(rows[i]) && forall j :: 0 <= j < i ==> !p(rows[j])
    ensures First(p, rows) == Some(rows[i])
  {
    FirstIs(p, rows);
    assert rows[i] in rows;
    var k := FirstPosition(p, rows);
  }

  /** A demoted row is still verified exactly when its entry is fresh. */
  lemma StillOkIffFresh(entries: seq<LogEntry>, fetched: seq<Fetched>, rows: seq<Row>, chosen: nat, maxLag: nat, i: nat)
    requires |fetched| == |entries| == |rows| && i < |rows|
    requires forall i :: 0 <= i < |entries| ==> rows[i] == Score(entries[i], fetched[i])
    requires Freshest(rows, chosen)
    ensures IsOk(Demoted(chosen, maxLag)(rows[i])) <==> Fresh(entries, fetched, maxLag, i)
    ensures Fresh(entries, fetched, maxLag, i) ==> Demoted(chosen, maxLag)(rows[i]) == rows[i]
  {
    if Verifies(entries[i], fetched[i]) {
      assert IsOk(rows[i]);
      if chosen > rows[i].slot + maxLag {
        var j :| 0 <= j < |rows| && IsOk(rows[j]) && rows[j].slot == chosen;
        assert Verifies(entries[j], fetched[j]);
      } else {
        forall j | 0 <= j < |entries| && Verifies(entries[j], fetched[j])
          ensures entries[j].slot <= entries[i].slot + maxLag
        {
          assert IsOk(rows[j]);
        }
      }
    }
  }

  lemma TicketsOf(entries: seq<LogEntry>, fetched: seq<Fetched>, maxLag: nat, demoted: seq<Row>, routable: seq<Row>)
    requires |fetched| == |entries| == |demoted|
    requires forall i :: 0 <= i < |entries| ==> (IsOk(demoted[i]) <==> Fresh(entries, fetched, maxLag, i))
    requires forall i :: 0 <= i < |entries| && IsOk(demoted[i]) ==> demoted[i] == Score(entries[i], fetched[i])
    requires forall i :: 0 <= i < |entries| ==> OriginOf(demoted[i]) == CanonicalDomain(entries[i].domain)
    requires forall i, j :: 0 <= i < j < |routable| ==> OriginOf(routable[i]) != OriginOf(routable[j])
    requires forall r :: r in routable <==> First(OkFrom(OriginOf(r)), demoted) == Some(r)
    ensures OneTicketPerFreshOrigin(entries, fetched, maxLag, routable)
  {
    hide First, CanonicalDomain, Fresh, Score;
    forall r | r in routable
      ensures exists i :: FirstFresh(entries, fetched, maxLag, i) && r == Score(entries[i], fetched[i])
    {
      var i := FirstPosition(OkFrom(OriginOf(r)), demoted);
      assert FirstFresh(entries, fetched, maxLag, i) by {
        forall j | 0 <= j < i && CanonicalDomain(entries[j].domain) == CanonicalDomain(entries[i].domain)
          ensures !Fresh(entries, fetched, maxLag, j)
        {
          assert !OkFrom(OriginOf(r))(demoted[j]);
        }
      }
    }
    forall i | FirstFresh(entries, fetched, maxLag, i) ensures Score(entries[i], fetched[i]) in routable {
      forall j | 0 <= j < i ensures !OkFrom(OriginOf(demoted[i]))(demoted[j]) {
      }
      FirstPositionIs(OkFrom(OriginOf(demoted[i])), demoted, i);
    }
  }

  /** The newest verified entry is fresh, and so is the first fresh one of its origin. */
  lemma SomeTicket(entries: seq<LogEntry>, fetched: seq<Fetched>, maxLag: nat, i: nat) returns (k: nat)
    requires |fetched| == |entries| && i < |entries| && Verifies(entries[i], fetched[i])
    ensures FirstFresh(entries, fetched, maxLag, k)
  {
    hide CanonicalDomain, Verifies;
    k := Newest(entries, fetched, |entries|, i);
    k := Earliest(entries, fetched, maxLag, k);
  }

  lemma {:induction false} Earliest(entries: seq<LogEntry>, fetched: seq<Fetched>, maxLag: nat, i: nat) returns (k: nat)
    requires |fetched| == |entries| && i < |entries| && Fresh(entries, fetched, maxLag, i)
    ensures FirstFresh(entries, fetched, maxLag, k)
    decreases i
  {
    if j :| 0 <= j < i && Fresh(entries, fetched, maxLag, j) {
      k := Earliest(entries, fetched, maxLag, j);
    } else {
      k := i;
    }
  }

  lemma {:induction false} Newest(entries: seq<LogEntry>, fetched: seq<Fetched>, n: nat, i: nat) returns (k: nat)
    requires |fetched| == |entries| && i < |entries| && n <= |entries| && Verifies(entries[i], fetched[i])
    ensures k < |entries| && Verifies(entries[k], fetched[k])
    ensures forall j :: 0 <= j < n && Verifies(entries[j], fetched[j]) ==> entries[j].slot <= entries[k].slot
  {
    if n == 0 {
      k := i;
    } else {
      k := Newest(entries, fetched, n - 1, i);
      if Verifies(entries[n - 1], fetched[n - 1]) && entries[n - 1].slot > entries[k].slot {
        k := n - 1;
      }
    }
  }

  /** `compare_with_chain` from the polled entries on, and the router's selection
      from the whitelist it writes. */
  method RoutableVerifiers(entries: seq<LogEntry>, fetched: seq<Fetched>, maxLag: u64) returns (routable: seq<Row>)
    requires |fetched| == |entries|
    ensures OneTicketPerFreshOrigin(entries, fetched, maxLag, routable)
    ensures routable != [] <==> exists i :: 0 <= i < |entries| && Verifies(entries[i], fetched[i])
  {
    hide Verifies, IsSelection, IsDeduped, First, Fresh, Freshest, Score, CanonicalDomain, Demoted;
    var rows, chosen := ScoreEntries(entries, fetched);
    var whitelist := new Row[|rows|](i requires 0 <= i < |rows| => rows[i]);
    assert whitelist[..] == rows;
    DemoteStaleVerifiers(whitelist, chosen, maxLag);
    var demoted := whitelist[..];
    var deduped := DedupeVerifiersByDomain(demoted);
    routable := SelectRoutableVerifiers(deduped);
    Pipeline(entries, fetched, maxLag, rows, chosen, demoted, deduped, routable);
  }

  lemma Pipeline(entries: seq<LogEntry>, fetched: seq<Fetched>, maxLag: nat, rows: seq<Row>, chosen: nat,
                 demoted: seq<Row>, deduped: seq<Row>, routable: seq<Row>)
    requires |fetched| == |entries| == |rows|
    requires forall i :: 0 <= i < |entries| ==> rows[i] == Score(entries[i], fetched[i])
    requires Freshest(rows, chosen) && demoted == Map(Demoted(chosen, maxLag), rows)
    requires IsDeduped(demoted, deduped) && IsSelection(deduped, routable)
    ensures OneTicketPerFreshOrigin(entries, fetched, maxLag, routable)
    ensures routable != [] <==> exists i :: 0 <= i < |entries| && Verifies(entries[i], fetched[i])
  {
    hide IsSelection, IsDeduped, First, Freshest, CanonicalDomain, Fresh, Verifies;
    forall i | 0 <= i < |entries|
      ensures IsOk(demoted[i]) <==> Fresh(entries, fetched, maxLag, i)
      ensures IsOk(demoted[i]) ==> demoted[i] == Score(entries[i], fetched[i])
      ensures OriginOf(demoted[i]) == CanonicalDomain(entries[i].domain)
    {
      StillOkIffFresh(entries, fetched, rows, chosen, maxLag, i);
      assert demoted[i] == Demoted(chosen, maxLag)(rows[i]);
    }
    SelectionDistinct(deduped, routable);
    forall r ensures r in routable <==> First(OkFrom(OriginOf(r)), demoted) == Some(r) {
      SelectedIff(deduped, routable, r);
      DedupedFirst(demoted, deduped, OriginOf(r));
    }
    TicketsOf(entries, fetched, maxLag, demoted, routable);
    NonEmpty(entries, fetched, maxLag, routable);
  }

  lemma NonEmpty(entries: seq<LogEntry>, fetched: seq<Fetched>, maxLag: nat, routable: seq<Row>)
    requires |fetched| == |entries| && OneTicketPerFreshOrigin(entries, fetched, maxLag, routable)
    ensures routable != [] <==> exists i :: 0 <= i < |entries| && Verifies(entries[i], fetched[i])
  {
    hide CanonicalDomain, Verifies, Score;
    if i :| 0 <= i < |entries| && Verifies(entries[i], fetched[i]) {
      var k := SomeTicket(entries, fetched, maxLag, i);
      assert Score(entries[k], fetched[k]) in routable;
    }
    if routable != [] {
      assert routable[0] in routable;
    }
  }
}
