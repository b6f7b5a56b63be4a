/** The stable sort by key that the Rust code uses to reach a canonical order,
    and the facts about permutations that make that order canonical. */
module Sorting {
  import opened Bytes

  function InsertByKey<T>(key: T -> Bytes32, x: T, s: seq<T>): seq<T>
  {
    if s == [] || Leq(key(x), key(s[0])) then [x] + s else [s[0]] + InsertByKey(key, x, s[1..])
  }

  /** `slice::sort_by_key`. */
  function SortByKey<T>(key: T -> Bytes32, s: seq<T>): seq<T>
  {
    if s == [] then [] else InsertByKey(key, s[0], SortByKey(key, s[1..]))
  }

  ghost predicate Ascending<T>(key: T -> Bytes32, s: seq<T>)
  {
    forall i, j :: 0 <= i < j < |s| ==> Leq(key(s[i]), key(s[j]))
  }

  ghost predicate DistinctKeys<T>(key: T -> Bytes32, s: seq<T>)
  {
    forall i, j :: 0 <= i < j < |s| ==> key(s[i]) != key(s[j])
  }

  /** Ascending as the numbers that the keys write out. */
  ghost predicate NumericallyAscending<T>(key: T -> Bytes32, s: seq<T>)
  {
    forall i, j :: 0 <= i < j < |s| ==> BigEndian(key(s[i])) <= BigEndian(key(s[j]))
  }

  lemma AscendingIsNumeric<T>(key: T -> Bytes32, s: seq<T>)
    ensures Ascending(key, s) <==> NumericallyAscending(key, s)
  {
    hide Leq, BigEndian;
    forall i, j | 0 <= i < j < |s|
      ensures Leq(key(s[i]), key(s[j])) <==> BigEndian(key(s[i])) <= BigEndian(key(s[j]))
    {
      LeqIsNumeric(key(s[i]), key(s[j]));
    }
  }

  lemma {:induction false} InsertPermutes<T>(key: T -> Bytes32, x: T, s: seq<T>)
    ensures multiset(InsertByKey(key, x, s)) == multiset{x} + multiset(s)
  {
    if s != [] && !Leq(key(x), key(s[0])) {
      InsertPermutes(key, x, s[1..]);
      assert s == [s[0]] + s[1..];
    }
  }

  lemma {:induction false} InsertAscending<T>(key: T -> Bytes32, x: T, s: seq<T>)
    requires Ascending(key, s)
    ensures Ascending(key, InsertByKey(key, x, s))
  {
    if s == [] {
    } else if Leq(key(x), key(s[0])) {
      forall j | 0 <= j < |s| ensures Leq(key(x), key(s[j])) {
        if j > 0 {
          LeqTransitive(key(x), key(s[0]), key(s[j]));
        }
      }
    } else {
      LeqTotal(key(x), key(s[0]));
      InsertAscending(key, x, s[1..]);
      var r := InsertByKey(key, x, s[1..]);
      forall j | 0 <= j < |r| ensures Leq(key(s[0]), key(r[j])) {
        InsertPermutes(key, x, s[1..]);
        assert r[j] in multiset(r);
        assert r[j] == x || r[j] in s[1..];
      }
    }
  }

  /** Sorting permutes. */
  lemma {:induction false} SortPermutes<T>(key: T -> Bytes32, s: seq<T>)
    ensures multiset(SortByKey(key, s)) == multiset(s)
    ensures |SortByKey(key, s)| == |s|
  {
    if s != [] {
      SortPermutes(key, s[1..]);
      InsertPermutes(key, s[0], SortByKey(key, s[1..]));
      assert s == [s[0]] + s[1..];
    }
    assert |multiset(SortByKey(key, s))| == |multiset(s)|;
  }

  /** Sorting sorts. */
  lemma {:induction false} SortAscending<T>(key: T -> Bytes32, s: seq<T>)
    ensures Ascending(key, SortByKey(key, s))
  {
    if s != [] {
      SortAscending(key, s[1..]);
      InsertAscending(key, s[0], SortByKey(key, s[1..]));
    }
  }

  /** Sorting leaves an ascending sequence alone. */
  lemma {:induction false} SortFixed<T>(key: T -> Bytes32, s: seq<T>)
    requires Ascending(key, s)
    ensures SortByKey(key, s) == s
  {
    if s != [] {
      assert Ascending(key, s[1..]);
      SortFixed(key, s[1..]);
      assert s == [s[0]] + s[1..];
    }
  }

  /** With distinct keys there is only one ascending arrangement. */
  lemma {:induction false} AscendingUnique<T>(key: T -> Bytes32, s: seq<T>, t: seq<T>)
    requires Ascending(key, s) && Ascending(key, t)
    requires DistinctKeys(key, s)
    requires multiset(s) == multiset(t)
    ensures s == t
  {
    hide Ascending, DistinctKeys, Leq;
    SameLength(s, t);
    if s != [] {
      SameFirst(key, s, t);
      SameTails(s, t);
      TailAscending(key, s);
      TailAscending(key, t);
      AscendingUnique(key, s[1..], t[1..]);
      assert s == [s[0]] + s[1..] && t == [t[0]] + t[1..];
    }
  }

  lemma SameLength<T>(s: seq<T>, t: seq<T>)
    requires multiset(s) == multiset(t)
    ensures |s| == |t|
  {
    assert |multiset(s)| == |s| && |multiset(t)| == |t|;
  }

  lemma SameTails<T>(s: seq<T>, t: seq<T>)
    requires s != [] && t != [] && s[0] == t[0] && multiset(s) == multiset(t)
    ensures multiset(s[1..]) == multiset(t[1..])
  {
    TailMultiset(s);
    TailMultiset(t);
  }

  lemma TailAscending<T>(key: T -> Bytes32, s: seq<T>)
    requires s != []
    ensures Ascending(key, s) ==> Ascending(key, s[1..])
    ensures DistinctKeys(key, s) ==> DistinctKeys(key, s[1..])
  {
  }

  lemma SameFirst<T>(key: T -> Bytes32, s: seq<T>, t: seq<T>)
    requires Ascending(key, s) && Ascending(key, t) && s != [] && t != []
    requires DistinctKeys(key, s)
    requires multiset(s) == multiset(t)
    ensures s[0] == t[0]
  {
    FirstIsLeast(key, s, t);
    FirstIsLeast(key, t, s);
    LeqAntisymmetric(key(s[0]), key(t[0]));
    assert t[0] in multiset(s);
  }

  lemma TailMultiset<T>(s: seq<T>)
    requires s != []
    ensures multiset(s[1..]) == multiset(s) - multiset{s[0]}
  {
    assert s == [s[0]] + s[1..];
  }

  lemma FirstIsLeast<T>(key: T -> Bytes32, s: seq<T>, t: seq<T>)
    requires Ascending(key, s) && s != [] && t != []
    requires multiset(s) == multiset(t)
    ensures Leq(key(s[0]), key(t[0]))
  {
    assert t[0] in multiset(s);
    var j :| 0 <= j < |s| && s[j] == t[0];
    if j == 0 {
      LeqReflexive(key(s[0]));
    }
  }

  lemma {:induction false} DistinctPermute<T>(key: T -> Bytes32, s: seq<T>, t: seq<T>)
    requires DistinctKeys(key, s) && multiset(s) == multiset(t)
    ensures DistinctKeys(key, t)
  {
    forall i, j | 0 <= i < j < |t|
      ensures key(t[i]) != key(t[j])
    {
      assert t[i] in multiset(s) && t[j] in multiset(s);
      var a :| 0 <= a < |s| && s[a] == t[i];
      var b :| 0 <= b < |s| && s[b] == t[j];
      if a == b {
        Twice(t, i, j);
        Once(key, s, a);
      }
    }
  }

  lemma Twice<T>(t: seq<T>, i: nat, j: nat)
    requires i < j < |t| && t[i] == t[j]
    ensures multiset(t)[t[i]] >= 2
  {
    assert t == t[..i] + [t[i]] + t[i + 1..j] + [t[j]] + t[j + 1..];
  }

  lemma Once<T>(key: T -> Bytes32, s: seq<T>, a: nat)
    requires DistinctKeys(key, s) && a < |s|
    ensures multiset(s)[s[a]] == 1
  {
    var p, q := s[..a], s[a + 1..];
    assert s == p + [s[a]] + q;
    assert s[a] !in p && s[a] !in q;
    assert multiset(s) == multiset(p) + multiset{s[a]} + multiset(q);
  }

  lemma DistinctConcat<T>(key: T -> Bytes32, s: seq<T>, t: seq<T>)
    ensures DistinctKeys(key, s + t)
            <==> DistinctKeys(key, s) && DistinctKeys(key, t)
                 && forall i, j :: 0 <= i < |s| && 0 <= j < |t| ==> key(s[i]) != key(t[j])
  {
    var u := s + t;
    if DistinctKeys(key, u) {
      forall i, j | 0 <= i < |s| && 0 <= j < |t| ensures key(s[i]) != key(t[j]) {
        assert key(u[i]) != key(u[|s| + j]);
      }
      forall i, j | 0 <= i < j < |s| ensures key(s[i]) != key(s[j]) {
        assert key(u[i]) != key(u[j]);
      }
      forall i, j | 0 <= i < j < |t| ensures key(t[i]) != key(t[j]) {
        assert key(u[|s| + i]) != key(u[|s| + j]);
      }
    }
  }

  /** Sorting two permutations of each other gives the same sequence. */
  lemma SortCanonical<T>(key: T -> Bytes32, s: seq<T>, t: seq<T>)
    requires DistinctKeys(key, s) && multiset(s) == multiset(t)
    ensures SortByKey(key, s) == SortByKey(key, t)
    ensures DistinctKeys(key, SortByKey(key, s))
  {
    SortPermutes(key, s);
    SortPermutes(key, t);
    SortAscending(key, s);
    SortAscending(key, t);
    DistinctPermute(key, s, SortByKey(key, s));
    AscendingUnique(key, SortByKey(key, s), SortByKey(key, t));
  }

  // ----- maps over permutations

  function Map<A, B>(f: A -> B, s: seq<A>): (r: seq<B>)
    ensures |r| == |s|
  {
    seq(|s|, i requires 0 <= i < |s| => f(s[i]))
  }

  function Without<A>(s: seq<A>, j: nat): (r: seq<A>)
    requires j < |s|
    ensures |r| == |s| - 1
  {
    s[..j] + s[j + 1..]
  }

  lemma MapWithout<A, B>(f: A -> B, s: seq<A>, j: nat)
    requires j < |s|
    ensures multiset(Map(f, Without(s, j))) == multiset(Map(f, s)) - multiset{f(s[j])}
    ensures f(s[j]) in multiset(Map(f, s))
  {
    var r := Map(f, s);
    assert r[j] == f(s[j]);
    assert r == r[..j] + [r[j]] + r[j + 1..];
    assert Map(f, Without(s, j)) == r[..j] + r[j + 1..];
  }

  /** Elements of `s` and `t` that agree under `f` agree under `g`. */
  ghost predicate Determines<A, B, C>(f: A -> B, g: A -> C, s: seq<A>, t: seq<A>)
  {
    forall i, j :: 0 <= i < |s| && 0 <= j < |t| && f(s[i]) == f(t[j]) ==> g(s[i]) == g(t[j])
  }

  /** If `f` determines `g`, equal images under `f` as multisets give equal
      images under `g`. */
  lemma {:induction false} MapFactors<A, B, C>(f: A -> B, g: A -> C, s: seq<A>, t: seq<A>)
    requires multiset(Map(f, s)) == multiset(Map(f, t))
    requires Determines(f, g, s, t)
    ensures multiset(Map(g, s)) == multiset(Map(g, t))
    decreases |s|
  {
    assert |multiset(Map(f, s))| == |multiset(Map(f, t))|;
    if s != [] {
      var j := Occurrence(f, t, Map(f, s), 0);
      MapWithout(f, s, 0);
      MapWithout(f, t, j);
      MapFactors(f, g, Without(s, 0), Without(t, j));
      MapWithout(g, s, 0);
      MapWithout(g, t, j);
      Cancel(multiset(Map(g, s)), multiset(Map(g, t)), g(s[0]));
    }
  }

  lemma Occurrence<A, B>(f: A -> B, t: seq<A>, images: seq<B>, i: nat) returns (j: nat)
    requires i < |images| && multiset(images) == multiset(Map(f, t))
    ensures j < |t| && f(t[j]) == images[i]
  {
    assert images[i] in multiset(Map(f, t));
    j :| 0 <= j < |Map(f, t)| && Map(f, t)[j] == images[i];
  }

  lemma Cancel<B>(a: multiset<B>, b: multiset<B>, x: B)
    requires x in a && x in b && a - multiset{x} == b - multiset{x}
    ensures a == b
  {
    assert a == (a - multiset{x}) + multiset{x};
    assert b == (b - multiset{x}) + multiset{x};
  }

  lemma MapPermutes<A, B>(f: A -> B, s: seq<A>, t: seq<A>)
    requires multiset(s) == multiset(t)
    ensures multiset(Map(f, s)) == multiset(Map(f, t))
  {
    var id := (x: A) => x;
    assert Map(id, s) == s && Map(id, t) == t;
    MapFactors(id, f, s, t);
  }

  /** Sorting commutes with a map that keeps the keys. */
  lemma {:induction false} SortMapCommutes<A, B>(f: A -> B, keyA: A -> Bytes32, keyB: B -> Bytes32, s: seq<A>)
    requires forall i :: 0 <= i < |s| ==> keyB(f(s[i])) == keyA(s[i])
    ensures SortByKey(keyB, Map(f, s)) == Map(f, SortByKey(keyA, s))
  {
    if s != [] {
      assert Map(f, s) == [f(s[0])] + Map(f, s[1..]);
      SortMapCommutes(f, keyA, keyB, s[1..]);
      var r := SortByKey(keyA, s[1..]);
      forall i | 0 <= i < |r| ensures keyB(f(r[i])) == keyA(r[i]) {
        SortPermutes(keyA, s[1..]);
        assert r[i] in multiset(s[1..]);
      }
      InsertMapCommutes(f, keyA, keyB, s[0], r);
    }
  }

  lemma {:induction false} InsertMapCommutes<A, B>(f: A -> B, keyA: A -> Bytes32, keyB: B -> Bytes32, x: A, s: seq<A>)
    requires keyB(f(x)) == keyA(x) && forall i :: 0 <= i < |s| ==> keyB(f(s[i])) == keyA(s[i])
    ensures InsertByKey(keyB, f(x), Map(f, s)) == Map(f, InsertByKey(keyA, x, s))
  {
    if s == [] || Leq(keyA(x), keyA(s[0])) {
      assert Map(f, [x] + s) == [f(x)] + Map(f, s);
    } else {
      InsertMapCommutes(f, keyA, keyB, x, s[1..]);
      assert Map(f, s)[1..] == Map(f, s[1..]);
      assert Map(f, [s[0]] + InsertByKey(keyA, x, s[1..])) == [f(s[0])] + Map(f, InsertByKey(keyA, x, s[1..]));
    }
  }

  // ----- ordered enumeration of a set, as a BTreeMap iterates its keys

  function Identity(k: Bytes32): Bytes32 { k }

  predicate IsLeast(k: Bytes32, s: set<Bytes32>)
  {
    k in s && forall x :: x in s ==> Leq(k, x)
  }

  lemma {:induction false} FindLeast(s: set<Bytes32>) returns (k: Bytes32)
    requires s != {}
    ensures IsLeast(k, s)
  {
    var y :| y in s;
    LeqReflexive(y);
    if s == {y} {
      k := y;
    } else {
      k := FindLeast(s - {y});
      LeqTotal(k, y);
      if !Leq(k, y) {
        forall x | x in s - {y} ensures Leq(y, x) {
          LeqTransitive(y, k, x);
        }
        k := y;
      }
    }
  }

  lemma LeastExists(s: set<Bytes32>)
    requires s != {}
    ensures exists k :: IsLeast(k, s)
    ensures forall k, l :: IsLeast(k, s) && IsLeast(l, s) ==> k == l
  {
    var least := FindLeast(s);
    forall k: Bytes32, l: Bytes32 | IsLeast(k, s) && IsLeast(l, s) ensures k == l {
      LeqAntisymmetric(k, l);
    }
  }

  function Least(s: set<Bytes32>): (k: Bytes32)
    requires s != {}
    ensures IsLeast(k, s)
  {
    LeastExists(s);
    var k :| IsLeast(k, s);
    k
  }

  function SortedSet(s: set<Bytes32>): seq<Bytes32>
  {
    if s == {} then [] else [Least(s)] + SortedSet(s - {Least(s)})
  }

  /** The enumeration is ascending, repeats nothing and misses nothing. */
  lemma {:induction false} SortedSetEnumerates(s: set<Bytes32>)
    ensures Ascending(Identity, SortedSet(s)) && DistinctKeys(Identity, SortedSet(s))
    ensures forall k :: k in SortedSet(s) <==> k in s
    ensures |SortedSet(s)| == |s|
  {
    hide Ascending, DistinctKeys, Leq;
    if s == {} {
      FirstBelow(Zero(), []);
    } else {
      var least := Least(s);
      SortedSetEnumerates(s - {least});
      assert SortedSet(s) == [least] + SortedSet(s - {least});
      FirstBelow(least, SortedSet(s - {least}));
    }
  }

  /** A key below all of an enumeration can be put in front of it. */
  lemma FirstBelow(k: Bytes32, keys: seq<Bytes32>)
    ensures Ascending(Identity, []) && DistinctKeys(Identity, [])
    ensures Ascending(Identity, keys) && (forall x :: x in keys ==> Leq(k, x)) ==> Ascending(Identity, [k] + keys)
    ensures DistinctKeys(Identity, keys) && k !in keys ==> DistinctKeys(Identity, [k] + keys)
  {
    hide Leq;
  }

  // ----- sums

  function Sum(s: seq<nat>): nat
  {
    if s == [] then 0 else Sum(s[..|s| - 1]) + s[|s| - 1]
  }

  lemma MapAppend<A, B>(f: A -> B, s: seq<A>, x: A)
    ensures Map(f, s + [x]) == Map(f, s) + [f(x)]
  {
  }

  lemma MapConcat<A, B>(f: A -> B, s: seq<A>, t: seq<A>)
    ensures Map(f, s + t) == Map(f, s) + Map(f, t)
  {
  }

  lemma SameKeysDistinct<A, B>(keyA: A -> Bytes32, s: seq<A>, keyB: B -> Bytes32, t: seq<B>)
    requires Map(keyA, s) == Map(keyB, t) && DistinctKeys(keyA, s)
    ensures DistinctKeys(keyB, t)
  {
    assert |Map(keyA, s)| == |s| && |Map(keyB, t)| == |t|;
    forall i | 0 <= i < |t| ensures keyB(t[i]) == keyA(s[i]) {
      assert Map(keyA, s)[i] == Map(keyB, t)[i];
    }
  }

  lemma SumMapAppend<A>(f: A -> nat, s: seq<A>, x: A)
    ensures Sum(Map(f, s + [x])) == Sum(Map(f, s)) + f(x)
  {
    MapAppend(f, s, x);
    var r := Map(f, s) + [f(x)];
    assert r[..|r| - 1] == Map(f, s);
  }

  lemma {:induction false} ZeroSum<A>(f: A -> nat, s: seq<A>)
    requires forall i :: 0 <= i < |s| ==> f(s[i]) == 0
    ensures Sum(Map(f, s)) == 0
  {
    if s != [] {
      var n := |s| - 1;
      ZeroSum(f, s[..n]);
      SumMapAppend(f, s[..n], s[n]);
      assert s == s[..n] + [s[n]];
    }
  }

  /** Raising one term of a sum over distinct keys raises the sum by as much. */
  lemma {:induction false} SumRaise<A(!new)>(f: A -> nat, g: A -> nat, s: seq<A>, w: A, c: nat)
    requires forall i, j :: 0 <= i < j < |s| ==> s[i] != s[j]
    requires forall v :: g(v) == f(v) + if v == w then c else 0
    ensures Sum(Map(g, s)) == Sum(Map(f, s)) + if w in s then c else 0
  {
    if s != [] {
      var n := |s| - 1;
      SumRaise(f, g, s[..n], w, c);
      SumMapAppend(f, s[..n], s[n]);
      SumMapAppend(g, s[..n], s[n]);
      assert s == s[..n] + [s[n]];
      assert w in s <==> w in s[..n] || w == s[n];
    }
  }

  lemma {:induction false} SumConcat(s: seq<nat>, t: seq<nat>)
    ensures Sum(s + t) == Sum(s) + Sum(t)
  {
    if t == [] {
      assert s + t == s;
    } else {
      var n := |t| - 1;
      SumConcat(s, t[..n]);
      assert (s + t)[..|s + t| - 1] == s + t[..n];
    }
  }

  lemma {:induction false} SumWithout(s: seq<nat>, j: nat)
    requires j < |s|
    ensures Sum(s) == Sum(Without(s, j)) + s[j]
  {
    var n := |s| - 1;
    if j == n {
      assert Without(s, j) == s[..n];
    } else {
      SumWithout(s[..n], j);
      var w := Without(s, j);
      assert w[..|w| - 1] == Without(s[..n], j) && w[|w| - 1] == s[n];
    }
  }

  /** A sum does not depend on the order of its terms. */
  lemma {:induction false} SumPermutes(s: seq<nat>, t: seq<nat>)
    requires multiset(s) == multiset(t)
    ensures Sum(s) == Sum(t)
    decreases |s|
  {
    assert |multiset(s)| == |multiset(t)|;
    if s != [] {
      assert s[0] in multiset(t);
      var j :| 0 <= j < |t| && t[j] == s[0];
      SumWithout(s, 0);
      SumWithout(t, j);
      WithoutMultiset(s, 0);
      WithoutMultiset(t, j);
      SumPermutes(Without(s, 0), Without(t, j));
    }
  }

  lemma WithoutMultiset<A>(s: seq<A>, j: nat)
    requires j < |s|
    ensures multiset(Without(s, j)) == multiset(s) - multiset{s[j]}
  {
    assert s == s[..j] + [s[j]] + s[j + 1..];
  }

  // ----- flat maps

  function FlatMap<A, B>(f: A -> seq<B>, s: seq<A>): seq<B>
  {
    if s == [] then [] else FlatMap(f, s[..|s| - 1]) + f(s[|s| - 1])
  }

  lemma FlatMapAppend<A, B>(f: A -> seq<B>, s: seq<A>, x: A)
    ensures FlatMap(f, s + [x]) == FlatMap(f, s) + f(x)
  {
    assert (s + [x])[..|s|] == s;
  }

  lemma {:induction false} FlatMapWithout<A, B>(f: A -> seq<B>, s: seq<A>, j: nat)
    requires j < |s|
    ensures multiset(FlatMap(f, s)) == multiset(FlatMap(f, Without(s, j))) + multiset(f(s[j]))
  {
    var n := |s| - 1;
    assert s == s[..n] + [s[n]];
    if j == n {
      assert Without(s, j) == s[..n];
    } else {
      FlatMapWithout(f, s[..n], j);
      assert Without(s, j) == Without(s[..n], j) + [s[n]];
    }
  }

  /** Permuting the input permutes the output. */
  lemma {:induction false} FlatMapPermutes<A, B>(f: A -> seq<B>, s: seq<A>, t: seq<A>)
    requires multiset(s) == multiset(t)
    ensures multiset(FlatMap(f, s)) == multiset(FlatMap(f, t))
    decreases |s|
  {
    assert |multiset(s)| == |multiset(t)|;
    if s != [] {
      assert s[0] in multiset(t);
      var j :| 0 <= j < |t| && t[j] == s[0];
      WithoutMultiset(s, 0);
      WithoutMultiset(t, j);
      FlatMapPermutes(f, Without(s, 0), Without(t, j));
      FlatMapWithout(f, s, 0);
      FlatMapWithout(f, t, j);
    }
  }

  /** Every output comes from some input. */
  lemma {:induction false} FlatMapFrom<A, B>(f: A -> seq<B>, s: seq<A>, y: B) returns (i: nat)
    requires y in FlatMap(f, s)
    ensures i < |s| && y in f(s[i])
  {
    var n := |s| - 1;
    if y in f(s[n]) {
      i := n;
    } else {
      i := FlatMapFrom(f, s[..n], y);
    }
  }

  lemma {:induction false} FlatMapPointwise<A, B>(f: A -> seq<B>, s: seq<A>, t: seq<A>)
    requires |s| == |t| && forall i :: 0 <= i < |s| ==> multiset(f(s[i])) == multiset(f(t[i]))
    ensures multiset(FlatMap(f, s)) == multiset(FlatMap(f, t))
  {
    if s != [] {
      var n := |s| - 1;
      FlatMapPointwise(f, s[..n], t[..n]);
    }
  }
}
