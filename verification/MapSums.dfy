/** Sums over the entries of a finite map. */
module MapSums {
  import opened Sorting

  ghost function WSum<K, V>(m: map<K, V>, w: (K, V) -> nat): nat
    decreases |m|
  {
    if m == map[] then 0
    else
      var k :| k in m;
      w(k, m[k]) + WSum(m - {k}, w)
  }

  /** Any entry can be taken out first. */
  lemma {:induction false} WSumRemove<K, V>(m: map<K, V>, w: (K, V) -> nat, k: K)
    requires k in m
    ensures WSum(m, w) == w(k, m[k]) + WSum(m - {k}, w)
    decreases |m|
  {
    var j :| j in m && WSum(m, w) == w(j, m[j]) + WSum(m - {j}, w);
    if j != k {
      WSumRemove(m - {j}, w, k);
      WSumRemove(m - {k}, w, j);
      assert m - {j} - {k} == m - {k} - {j};
    }
  }

  lemma WSumInsert<K, V>(m: map<K, V>, w: (K, V) -> nat, k: K, v: V)
    requires k !in m
    ensures WSum(m[k := v], w) == WSum(m, w) + w(k, v)
  {
    WSumRemove(m[k := v], w, k);
    assert m[k := v] - {k} == m;
  }

  lemma WSumUpdate<K, V>(m: map<K, V>, w: (K, V) -> nat, k: K, v: V)
    requires k in m
    ensures WSum(m[k := v], w) + w(k, m[k]) == WSum(m, w) + w(k, v)
  {
    WSumRemove(m, w, k);
    WSumRemove(m[k := v], w, k);
    assert m[k := v] - {k} == m - {k};
  }

  lemma WSumPart<K, V>(m: map<K, V>, w: (K, V) -> nat, k: K)
    requires k in m
    ensures w(k, m[k]) <= WSum(m, w)
  {
    WSumRemove(m, w, k);
  }

  /** Maps with the same keys and equal weights have the same sum. */
  lemma {:induction false} WSumAgree<K, V>(m: map<K, V>, n: map<K, V>, w: (K, V) -> nat)
    requires m.Keys == n.Keys && forall k :: k in m ==> w(k, m[k]) == w(k, n[k])
    ensures WSum(m, w) == WSum(n, w)
    decreases |m|
  {
    if m != map[] {
      var k :| k in m;
      WSumRemove(m, w, k);
      WSumRemove(n, w, k);
      WSumAgree(m - {k}, n - {k}, w);
    } else {
      assert n == map[];
    }
  }

  lemma {:induction false} WSumBelow<K, V>(m: map<K, V>, w: (K, V) -> nat, u: (K, V) -> nat)
    requires forall k :: k in m ==> w(k, m[k]) <= u(k, m[k])
    ensures WSum(m, w) <= WSum(m, u)
    decreases |m|
  {
    if m != map[] {
      var k :| k in m;
      WSumRemove(m, w, k);
      WSumRemove(m, u, k);
      WSumBelow(m - {k}, w, u);
    }
  }

  /** Weights at most `c` apart give sums at most `c` per entry apart. */
  lemma {:induction false} WSumWithin<K, V>(m: map<K, V>, w: (K, V) -> nat, u: (K, V) -> nat, c: nat)
    requires forall k :: k in m ==> w(k, m[k]) <= u(k, m[k]) + c
    ensures WSum(m, w) <= WSum(m, u) + c * |m|
    decreases |m|
  {
    hide WSum;
    if m == map[] {
      WSumEmpty<K, V>(w);
    } else {
      var k :| k in m;
      WSumRemove(m, w, k);
      WSumRemove(m, u, k);
      WSumWithin(m - {k}, w, u, c);
      assert |m| == |m - {k}| + 1;
      OneMore(c, |m - {k}|);
    }
  }

  lemma WSumEmpty<K, V>(w: (K, V) -> nat)
    ensures WSum(map[], w) == 0
  {
  }

  lemma OneMore(c: nat, n: nat)
    ensures c * (n + 1) == c * n + c
  {
  }

  /** What the map contributes at key `k`. */
  function At<K, V>(m: map<K, V>, w: (K, V) -> nat): K -> nat
  {
    (k: K) => if k in m then w(k, m[k]) else 0
  }

  /** A sum over the map as a sum over a list of distinct keys that covers every
      entry with a positive weight. */
  lemma {:induction false} WSumAsList<K(!new), V>(m: map<K, V>, w: (K, V) -> nat, keys: seq<K>)
    requires forall i, j :: 0 <= i < j < |keys| ==> keys[i] != keys[j]
    requires forall k :: k in m && w(k, m[k]) > 0 ==> k in keys
    ensures WSum(m, w) == Sum(Map(At(m, w), keys))
    decreases |m|
  {
    if m == map[] {
      ZeroSum(At(m, w), keys);
    } else {
      var k :| k in m;
      var rest := m - {k};
      WSumRemove(m, w, k);
      WSumAsList(rest, w, keys);
      assert forall x :: At(m, w)(x) == At(rest, w)(x) + if x == k then w(k, m[k]) else 0;
      SumRaise(At(rest, w), At(m, w), keys, k, w(k, m[k]));
    }
  }

  /** The weight `w`, counted only for the entries of group `g`. */
  ghost function Within<K, V, G>(w: (K, V) -> nat, group: K -> G, g: G): (K, V) -> nat
  {
    (k: K, v: V) => if group(k) == g then w(k, v) else 0
  }

  ghost function GroupSum<K, V, G>(m: map<K, V>, w: (K, V) -> nat, group: K -> G): G -> nat
  {
    (g: G) => WSum(m, Within(w, group, g))
  }

  /** The sum of the group sums is the sum. */
  lemma {:induction false} WSumGrouped<K, V, G(!new)>(m: map<K, V>, w: (K, V) -> nat, group: K -> G, groups: seq<G>)
    requires forall i, j :: 0 <= i < j < |groups| ==> groups[i] != groups[j]
    requires forall k :: k in m ==> group(k) in groups
    ensures WSum(m, w) == Sum(Map(GroupSum(m, w, group), groups))
    decreases |m|
  {
    hide WSum, Sum, GroupSum;
    if m == map[] {
      WSumEmpty<K, V>(w);
      GroupSumEmpty<K, V, G>(w, group);
      ZeroSum(GroupSum(m, w, group), groups);
    } else {
      var k :| k in m;
      var rest := m - {k};
      WSumRemove(m, w, k);
      WSumGrouped(rest, w, group, groups);
      GroupSumRemove(m, w, group, k);
      SumRaise(GroupSum(rest, w, group), GroupSum(m, w, group), groups, group(k), w(k, m[k]));
    }
  }

  lemma GroupSumEmpty<K, V, G(!new)>(w: (K, V) -> nat, group: K -> G)
    ensures forall g :: GroupSum(map[], w, group)(g) == 0
  {
  }

  lemma GroupSumRemove<K, V, G(!new)>(m: map<K, V>, w: (K, V) -> nat, group: K -> G, k: K)
    requires k in m
    ensures forall g :: GroupSum(m, w, group)(g)
                        == GroupSum(m - {k}, w, group)(g) + if g == group(k) then w(k, m[k]) else 0
  {
    forall g ensures GroupSum(m, w, group)(g)
                     == GroupSum(m - {k}, w, group)(g) + if g == group(k) then w(k, m[k]) else 0
    {
      WSumRemove(m, Within(w, group, g), k);
    }
  }

  lemma {:induction false} SumAdd<A>(f: A -> nat, g: A -> nat, both: A -> nat, s: seq<A>)
    requires forall i :: 0 <= i < |s| ==> both(s[i]) == f(s[i]) + g(s[i])
    ensures Sum(Map(both, s)) == Sum(Map(f, s)) + Sum(Map(g, s))
  {
    if s != [] {
      var n := |s| - 1;
      SumAdd(f, g, both, s[..n]);
      SumMapAppend(f, s[..n], s[n]);
      SumMapAppend(g, s[..n], s[n]);
      SumMapAppend(both, s[..n], s[n]);
      assert s == s[..n] + [s[n]];
    }
  }
}
