/** What the Merkle tree promises: completeness and soundness of proofs, and
    exactly what the unsorted path checker accepts. */
module MerkleProofs {
  import opened Bytes
  import opened TreeShape
  import opened MerkleSpec
  import opened Hashing
  import opened MerkleTree

  /** Every item's own proof verifies against the root, for every hash. */
  lemma Completeness(h: Hasher, items: seq<Bytes>, i: nat)
    requires i < |items|
    ensures Root(h, true, items).Some?
    ensures Verifies(h, items[i], ProofOf(h, true, items, i), Root(h, true, items).value)
  {
    PairingSymmetric(h);
    FoldClimbs(Pairing(h, true), Leaves(h, items), i, Height(|items|));
    LevelLenHeight(|items|, Height(|items|));
  }

  // ----- soundness

  /** A value folded up to node (k, i) started at a leaf below that node, and
      climbed along exactly that leaf's siblings. */
  lemma {:induction false} Descend(h: Hasher, items: seq<Bytes>, data: Bytes, proof: seq<Bytes32>,
                                   k: nat, i: nat, s: set<Bytes>) returns (leaf: nat)
    requires k <= Height(|items|) && i < LevelLen(|items|, k)
    requires Fold(Pairing(h, true), HashLeaf(h, data), proof) == Node(Pairing(h, true), Leaves(h, items), k, i)
    requires CollisionFreeOn(h, s)
    requires TreeInputs(h, true, items) <= s && VerifyInputs(h, data, proof) <= s
    ensures leaf < |items| && Ancestor(|items|, leaf, k) == i
    ensures items[leaf] == data && proof == Climb(Pairing(h, true), Leaves(h, items), leaf, k)
    decreases k, 0
  {
    NodeIsHash(h, true, items, k, i);
    assert InputAt(h, true, items, k, i) in TreeInputs(h, true, items);
    if proof == [] {
      assert LeafInput(data) in VerifyInputs(h, data, proof);
      if k > 0 {
        DescendMixed(h, items, data, k, i);
        assert false;
      }
      LeafInputInjective(data, items[i]);
      leaf := i;
    } else {
      var init, last := proof[..|proof| - 1], proof[|proof| - 1];
      var below := Fold(Pairing(h, true), HashLeaf(h, data), init);
      assert PairInput(true, below, last) in VerifyInputs(h, data, proof);
      if k == 0 {
        PrefixesSeparate(items[i], true, below, last);
        assert false;
      } else {
        leaf := DescendStep(h, items, data, init, last, k - 1, i, s);
        assert proof == init + [last];
      }
    }
  }

  lemma DescendMixed(h: Hasher, items: seq<Bytes>, data: Bytes, k: nat, i: nat)
    requires k > 0 && i < LevelLen(|items|, k)
    ensures LeafInput(data) != InputAt(h, true, items, k, i)
  {
    assert InputAt(h, true, items, k, i)[0] == 1;
  }

  lemma DescendStep(h: Hasher, items: seq<Bytes>, data: Bytes, init: seq<Bytes32>, last: Bytes32,
                    k: nat, i: nat, s: set<Bytes>) returns (leaf: nat)
    requires k < Height(|items|) && i < LevelLen(|items|, k + 1)
    requires PairInput(true, Fold(Pairing(h, true), HashLeaf(h, data), init), last)
             == InputAt(h, true, items, k + 1, i)
    requires CollisionFreeOn(h, s)
    requires TreeInputs(h, true, items) <= s && VerifyInputs(h, data, init) <= s
    ensures leaf < |items| && Ancestor(|items|, leaf, k + 1) == i
    ensures items[leaf] == data && init + [last] == Climb(Pairing(h, true), Leaves(h, items), leaf, k + 1)
    decreases k, 1
  {
    var pair, leaves := Pairing(h, true), Leaves(h, items);
    var right := RightChild(LevelLen(|items|, k), i);
    var below := Fold(pair, HashLeaf(h, data), init);
    var l, r := Node(pair, leaves, k, 2 * i), Node(pair, leaves, k, right);
    PairInputInjective(below, last, l, r);
    var child := if below == l && last == r then 2 * i else right;
    SiblingOfChild(pair, leaves, k, i, child);
    leaf := Descend(h, items, data, init, k, child, s);
  }

  /** The checker accepts exactly the pairs (item, its own proof): with no
      collision among the strings hashed, nothing else verifies, whatever the
      data and whatever the number of siblings. */
  lemma AcceptedIffGenuine(h: Hasher, items: seq<Bytes>, data: Bytes, proof: seq<Bytes32>, s: set<Bytes>)
    requires items != []
    requires CollisionFreeOn(h, s)
    requires TreeInputs(h, true, items) <= s && VerifyInputs(h, data, proof) <= s
    ensures Verifies(h, data, proof, Root(h, true, items).value)
            <==> exists i: nat :: i < |items| && items[i] == data && proof == ProofOf(h, true, items, i)
  {
    if Verifies(h, data, proof, Root(h, true, items).value) {
      LevelLenHeight(|items|, Height(|items|));
      var i := Descend(h, items, data, proof, Height(|items|), 0, s);
    }
    forall i: nat | i < |items| && items[i] == data && proof == ProofOf(h, true, items, i)
      ensures Verifies(h, data, proof, Root(h, true, items).value)
    {
      Completeness(h, items, i);
    }
  }

  // ----- the unsorted path checker

  /** Path extracted for item `i` of an unsorted tree. */
  function UnsortedPath(h: Hasher, items: seq<Bytes>, i: nat): seq<ProofEntry<Bytes32>>
    requires i < |items|
  {
    PathOf(Pairing(h, false), Leaves(h, items), i, Height(|items|))
  }

  /** The genuine node at each level makes the checker hash the tree's own input. */
  lemma StepInputGenuine(h: Hasher, items: seq<Bytes>, i: nat, k: nat)
    requires i < |items|
    ensures StepInput(Node(Pairing(h, false), Leaves(h, items), k, Ancestor(|items|, i, k)),
                      EntryAt(Pairing(h, false), Leaves(h, items), i, k + 1))
            == InputAt(h, false, items, k + 1, Ancestor(|items|, i, k + 1))
  {
    hide Node, LevelLen, Leaves;
    var leaves := Leaves(h, items);
    var level := Level(Pairing(h, false), leaves, k);
    var a := Ancestor(|items|, i, k);
  }

  lemma {:induction false} VerifyPathFrom(h: Hasher, items: seq<Bytes>, i: nat, k: nat)
    requires i < |items| && k <= Height(|items|)
    ensures VerifyPath(h, UnsortedPath(h, items, i)[k..],
                       Node(Pairing(h, false), Leaves(h, items), k, Ancestor(|items|, i, k)))
    decreases Height(|items|) - k
  {
    hide Node, InputAt, StepInput, PathOf, Ancestor;
    var path := UnsortedPath(h, items, i);
    if k < Height(|items|) {
      PathOfAt(Pairing(h, false), Leaves(h, items), i, |path|, k);
      StepInputGenuine(h, items, i, k);
      NodeIsHash(h, false, items, k + 1, Ancestor(|items|, i, k + 1));
      assert path[k..][1..] == path[k + 1..];
      VerifyPathFrom(h, items, i, k + 1);
    }
  }

  /** `find_path(i).verify(c)` on an unsorted tree holds for leaf `i` and, with
      no collision among the strings hashed, for nothing else as soon as there
      are two items; the empty path of a single item accepts every candidate. */
  lemma PathAcceptsOnlyLeaf(h: Hasher, items: seq<Bytes>, i: nat, candidate: Bytes32, s: set<Bytes>)
    requires i < |items|
    requires CollisionFreeOn(h, s) && TreeInputs(h, false, items) <= s
    requires |items| >= 2 ==> StepInput(candidate, UnsortedPath(h, items, i)[0]) in s
    ensures VerifyPath(h, UnsortedPath(h, items, i), candidate)
            <==> |items| == 1 || candidate == HashLeaf(h, items[i])
  {
    var path := UnsortedPath(h, items, i);
    VerifyPathFrom(h, items, i, 0);
    assert path[0..] == path;
    if |items| >= 2 && VerifyPath(h, path, candidate) {
      PathOfAt(Pairing(h, false), Leaves(h, items), i, |path|, 0);
      StepInputGenuine(h, items, i, 0);
      NodeIsHash(h, false, items, 1, Ancestor(|items|, i, 1));
      assert InputAt(h, false, items, 1, Ancestor(|items|, i, 1)) in TreeInputs(h, false, items);
      SameStep(candidate, HashLeaf(h, items[i]), path[0]);
    }
  }

  lemma SameStep(c: Bytes32, d: Bytes32, e: ProofEntry<Bytes32>)
    requires e.left.None? || e.right.None?
    requires StepInput(c, e) == StepInput(d, e)
    ensures c == d
  {
    NodeInputInjective(if e.left.Some? then e.left.value else c, if e.right.Some? then e.right.value else c,
                       if e.left.Some? then e.left.value else d, if e.right.Some? then e.right.value else d);
  }
}
