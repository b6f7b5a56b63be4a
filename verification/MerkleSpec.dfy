/** Shape of the tree: how many nodes each level has and where it starts. */
module TreeShape {

  function HalfUp(n: nat): nat { (n + 1) / 2 }

  /** Number of nodes on level `k` above `n` leaves. */
  function LevelLen(n: nat, k: nat): nat
  {
    if k == 0 then n else HalfUp(LevelLen(n, k - 1))
  }

  /** Offset of level `k` when the levels are laid end to end. */
  function LevelStart(n: nat, k: nat): nat
  {
    if k == 0 then 0 else LevelStart(n, k - 1) + LevelLen(n, k - 1)
  }

  /** Number of levels above the leaves. */
  function Height(n: nat): nat
  {
    if n <= 1 then 0 else 1 + Height(HalfUp(n))
  }

  /** Right child of node `i`: its left child again at the tail of an odd level. */
  function RightChild(len: nat, i: nat): nat
  {
    if 2 * i + 1 < len then 2 * i + 1 else 2 * i
  }

  /** The node above leaf `i` on level `k`. */
  function Ancestor(n: nat, i: nat, k: nat): (a: nat)
    requires i < n
    ensures a < LevelLen(n, k)
  {
    if k == 0 then i else Ancestor(n, i, k - 1) / 2
  }

  lemma {:induction false} LevelLenShift(n: nat, k: nat)
    ensures LevelLen(n, k + 1) == LevelLen(HalfUp(n), k)
  {
    if k > 0 {
      LevelLenShift(n, k - 1);
    }
  }

  /** Exactly the levels from `Height` on have a single node. */
  lemma {:induction false} LevelLenHeight(n: nat, k: nat)
    requires n >= 1
    ensures LevelLen(n, k) >= 1
    ensures LevelLen(n, k) == 1 <==> k >= Height(n)
    decreases k
  {
    if k > 0 {
      LevelLenShift(n, k - 1);
      if n > 1 {
        LevelLenHeight(HalfUp(n), k - 1);
      } else {
        LevelLenHeight(n, k - 1);
      }
    }
  }

  // ----- size of the tree and length of the proofs

  function Pow2(k: nat): (p: nat)
    ensures p >= 1
  {
    if k == 0 then 1 else 2 * Pow2(k - 1)
  }

  /** Number of halvings until one is left: the integer part of log2. */
  function FloorLog2(n: nat): nat
  {
    if n <= 1 then 0 else 1 + FloorLog2(n / 2)
  }

  function NodeCount(n: nat): nat { LevelStart(n, Height(n) + 1) }

  lemma {:induction false} LevelStartShift(n: nat, k: nat)
    ensures LevelStart(n, k + 1) == n + LevelStart(HalfUp(n), k)
  {
    if k > 0 {
      LevelStartShift(n, k - 1);
      LevelLenShift(n, k - 1);
    }
  }

  /** The height is the ceiling of log2. */
  lemma {:induction false} HeightIsCeilLog2(n: nat)
    requires n >= 1
    ensures n <= Pow2(Height(n))
    ensures Height(n) > 0 ==> Pow2(Height(n) - 1) < n
    ensures Height(n) <= FloorLog2(n) + 1
  {
    if n > 1 {
      HeightIsCeilLog2(HalfUp(n));
      FloorLog2Pow(n);
      Pow2Monotone(Height(n) - 1, FloorLog2(n) + 1);
    }
  }

  lemma {:induction false} FloorLog2Pow(n: nat)
    requires n >= 1
    ensures Pow2(FloorLog2(n)) <= n < Pow2(FloorLog2(n) + 1)
  {
    if n > 1 {
      FloorLog2Pow(n / 2);
    }
  }

  lemma {:induction false} Pow2Monotone(j: nat, k: nat)
    ensures Pow2(j) < Pow2(k) ==> j < k
    decreases j + k
  {
    if j > 0 && k > 0 {
      Pow2Monotone(j - 1, k - 1);
    }
  }

  lemma {:induction false} NodeCountHeight(n: nat)
    requires n >= 2
    ensures NodeCount(n) <= 2 * n + Height(n) - 2
  {
    LevelStartShift(n, Height(n));
    if n > 2 {
      NodeCountHeight(HalfUp(n));
    } else {
      LevelStartShift(1, 0);
      assert LevelStart(1, 1) == 1;
    }
  }

  /** The capacity reserved up front is never exceeded. */
  lemma CapacitySuffices(n: nat)
    requires n >= 1
    ensures NodeCount(n) <= FloorLog2(n) + 2 * n + 1
  {
    if n == 1 {
      LevelStartShift(1, 0);
    } else {
      NodeCountHeight(n);
      HeightIsCeilLog2(n);
    }
  }
}

/** Reference definition of the Merkle tree: node `i` of level `k` by recursion
    on the level, with no flat vector and no loop.  `pair` hashes two children
    into their parent. */
module MerkleSpec {
  import opened TreeShape

  function Node<T>(pair: (T, T) -> T, leaves: seq<T>, k: nat, i: nat): T
    requires i < LevelLen(|leaves|, k)
  {
    if k == 0 then leaves[i]
    else pair(Node(pair, leaves, k - 1, 2 * i),
              Node(pair, leaves, k - 1, RightChild(LevelLen(|leaves|, k - 1), i)))
  }

  /** All nodes of level `k`. */
  function Level<T>(pair: (T, T) -> T, leaves: seq<T>, k: nat): (level: seq<T>)
    ensures |level| == LevelLen(|leaves|, k)
    ensures forall i: nat {:trigger level[i]} :: i < |level| ==> level[i] == Node(pair, leaves, k, i)
  {
    seq(LevelLen(|leaves|, k), i requires 0 <= i < LevelLen(|leaves|, k) => Node(pair, leaves, k, i))
  }

  function Top<T>(pair: (T, T) -> T, leaves: seq<T>): T
    requires leaves != []
  {
    LevelLenHeight(|leaves|, Height(|leaves|));
    Node(pair, leaves, Height(|leaves|), 0)
  }

  /** The other child of the parent of node `i`. */
  function Sibling<T>(pair: (T, T) -> T, leaves: seq<T>, k: nat, i: nat): T
    requires i < LevelLen(|leaves|, k)
  {
    if i % 2 == 0 then Node(pair, leaves, k, RightChild(LevelLen(|leaves|, k), i / 2))
    else Node(pair, leaves, k, i - 1)
  }

  /** Siblings met when climbing `k` levels from leaf `i`. */
  function Climb<T>(pair: (T, T) -> T, leaves: seq<T>, i: nat, k: nat): (p: seq<T>)
    requires i < |leaves|
    ensures |p| == k
  {
    if k == 0 then []
    else Climb(pair, leaves, i, k - 1) + [Sibling(pair, leaves, k - 1, Ancestor(|leaves|, i, k - 1))]
  }

  /** Value reached from `node` by pairing it with each sibling in turn. */
  function Fold<T>(pair: (T, T) -> T, node: T, proof: seq<T>): T
  {
    if proof == [] then node
    else pair(Fold(pair, node, proof[..|proof| - 1]), proof[|proof| - 1])
  }

  /** Children of node `i` above level `k`, seen from one of them. */
  lemma SiblingOfChild<T>(pair: (T, T) -> T, leaves: seq<T>, k: nat, i: nat, child: nat)
    requires i < LevelLen(|leaves|, k + 1)
    requires child == 2 * i || child == RightChild(LevelLen(|leaves|, k), i)
    ensures child < LevelLen(|leaves|, k) && child / 2 == i
    ensures Sibling(pair, leaves, k, child)
            == Node(pair, leaves, k, if child == 2 * i then RightChild(LevelLen(|leaves|, k), i) else 2 * i)
  {
    assert LevelLen(|leaves|, k + 1) == HalfUp(LevelLen(|leaves|, k));
  }

  /** With a symmetric `pair`, a node and its sibling give the parent. */
  lemma ParentOfSiblings<T(!new)>(pair: (T, T) -> T, leaves: seq<T>, k: nat, i: nat)
    requires i < LevelLen(|leaves|, k)
    requires forall a, b :: pair(a, b) == pair(b, a)
    ensures i / 2 < LevelLen(|leaves|, k + 1)
    ensures pair(Node(pair, leaves, k, i), Sibling(pair, leaves, k, i)) == Node(pair, leaves, k + 1, i / 2)
  {
    SiblingOfChild(pair, leaves, k, i / 2, i);
  }

  lemma {:induction false} FoldClimbs<T(!new)>(pair: (T, T) -> T, leaves: seq<T>, i: nat, k: nat)
    requires i < |leaves|
    requires forall a, b :: pair(a, b) == pair(b, a)
    ensures Fold(pair, leaves[i], Climb(pair, leaves, i, k)) == Node(pair, leaves, k, Ancestor(|leaves|, i, k))
  {
    if k > 0 {
      FoldClimbs(pair, leaves, i, k - 1);
      var p := Climb(pair, leaves, i, k);
      assert p[..|p| - 1] == Climb(pair, leaves, i, k - 1);
      ParentOfSiblings(pair, leaves, k - 1, Ancestor(|leaves|, i, k - 1));
    }
  }
}
