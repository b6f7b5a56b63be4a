/** The hash layer of the tree, for any function `h` from byte strings to 32
    bytes: prefixes, sibling order, and the strings that get hashed. */
module Hashing {
  import opened Bytes
  import opened TreeShape
  import opened MerkleSpec

  type Hasher = Bytes -> Bytes32

  function LeafInput(data: Bytes): Bytes { [0] + data }

  function NodeInput(left: Bytes32, right: Bytes32): Bytes { [1] + left + right }

  /** Input of the hash above a pair; `sorted` orders the two siblings first. */
  function PairInput(sorted: bool, left: Bytes32, right: Bytes32): Bytes
  {
    if sorted && !Leq(left, right) then NodeInput(right, left) else NodeInput(left, right)
  }

  function HashLeaf(h: Hasher, data: Bytes): Bytes32 { h(LeafInput(data)) }

  function Pairing(h: Hasher, sorted: bool): (Bytes32, Bytes32) -> Bytes32
  {
    (l: Bytes32, r: Bytes32) => h(PairInput(sorted, l, r))
  }

  function Leaves(h: Hasher, items: seq<Bytes>): (leaves: seq<Bytes32>)
    ensures |leaves| == |items|
  {
    seq(|items|, i requires 0 <= i < |items| => HashLeaf(h, items[i]))
  }

  function Root(h: Hasher, sorted: bool, items: seq<Bytes>): Option<Bytes32>
  {
    if items == [] then None else Some(Top(Pairing(h, sorted), Leaves(h, items)))
  }

  /** The siblings that prove item `i`. */
  function ProofOf(h: Hasher, sorted: bool, items: seq<Bytes>, i: nat): seq<Bytes32>
    requires i < |items|
  {
    Climb(Pairing(h, sorted), Leaves(h, items), i, Height(|items|))
  }

  /** What the on-chain check decides: every pair sorted before hashing. */
  predicate Verifies(h: Hasher, data: Bytes, proof: seq<Bytes32>, root: Bytes32)
  {
    Fold(Pairing(h, true), HashLeaf(h, data), proof) == root
  }

  // ----- injectivity of the inputs

  lemma PairInputSymmetric(a: Bytes32, b: Bytes32)
    ensures PairInput(true, a, b) == PairInput(true, b, a)
  {
    LeqTotal(a, b);
    if Leq(a, b) && Leq(b, a) {
      LeqAntisymmetric(a, b);
    }
  }

  lemma PairingSymmetric(h: Hasher)
    ensures forall a, b :: Pairing(h, true)(a, b) == Pairing(h, true)(b, a)
  {
    forall a: Bytes32, b: Bytes32
      ensures Pairing(h, true)(a, b) == Pairing(h, true)(b, a)
    {
      PairInputSymmetric(a, b);
    }
  }

  lemma NodeInputInjective(a: Bytes32, b: Bytes32, c: Bytes32, d: Bytes32)
    requires NodeInput(a, b) == NodeInput(c, d)
    ensures a == c && b == d
  {
    var x, y := NodeInput(a, b), NodeInput(c, d);
    assert x[1..33] == a && x[33..] == b;
    assert y[1..33] == c && y[33..] == d;
  }

  /** Equal sorted inputs come from the same pair, in one order or the other. */
  lemma PairInputInjective(a: Bytes32, b: Bytes32, c: Bytes32, d: Bytes32)
    requires PairInput(true, a, b) == PairInput(true, c, d)
    ensures (a == c && b == d) || (a == d && b == c)
  {
    var x := if Leq(a, b) then (a, b) else (b, a);
    var y := if Leq(c, d) then (c, d) else (d, c);
    NodeInputInjective(x.0, x.1, y.0, y.1);
  }

  lemma PrefixesSeparate(data: Bytes, sorted: bool, l: Bytes32, r: Bytes32)
    ensures LeafInput(data) != PairInput(sorted, l, r)
  {
    assert LeafInput(data)[0] == 0 && PairInput(sorted, l, r)[0] == 1;
  }

  lemma LeafInputInjective(a: Bytes, b: Bytes)
    requires LeafInput(a) == LeafInput(b)
    ensures a == b
  {
    assert LeafInput(a)[1..] == a && LeafInput(b)[1..] == b;
  }

  // ----- the strings that get hashed

  /** No two different strings of `s` have the same hash. */
  ghost predicate CollisionFreeOn(h: Hasher, s: set<Bytes>)
  {
    forall x, y :: x in s && y in s && h(x) == h(y) ==> x == y
  }

  /** Input of the hash at node `i` of level `k`. */
  function InputAt(h: Hasher, sorted: bool, items: seq<Bytes>, k: nat, i: nat): Bytes
    requires i < LevelLen(|items|, k)
  {
    if k == 0 then LeafInput(items[i])
    else PairInput(sorted, Node(Pairing(h, sorted), Leaves(h, items), k - 1, 2 * i),
                   Node(Pairing(h, sorted), Leaves(h, items), k - 1, RightChild(LevelLen(|items|, k - 1), i)))
  }

  lemma NodeIsHash(h: Hasher, sorted: bool, items: seq<Bytes>, k: nat, i: nat)
    requires i < LevelLen(|items|, k)
    ensures Node(Pairing(h, sorted), Leaves(h, items), k, i) == h(InputAt(h, sorted, items, k, i))
  {
  }

  /** Every string hashed while building the tree. */
  ghost function TreeInputs(h: Hasher, sorted: bool, items: seq<Bytes>): set<Bytes>
  {
    set k: nat, i: nat | k <= Height(|items|) && i < LevelLen(|items|, k)
      :: InputAt(h, sorted, items, k, i)
  }

  /** Every string hashed while folding a proof. */
  ghost function FoldInputs(h: Hasher, node: Bytes32, proof: seq<Bytes32>): set<Bytes>
  {
    if proof == [] then {}
    else
      var init := proof[..|proof| - 1];
      FoldInputs(h, node, init) + {PairInput(true, Fold(Pairing(h, true), node, init), proof[|proof| - 1])}
  }

  ghost function VerifyInputs(h: Hasher, data: Bytes, proof: seq<Bytes32>): set<Bytes>
  {
    {LeafInput(data)} + FoldInputs(h, HashLeaf(h, data), proof)
  }

  // ----- the smallest trees, written out

  /** What is hashed above two nodes: a one, then their bytes. */
  function Joined(a: Bytes, b: Bytes): Bytes { [1] + a + b }

  /** The hash above two nodes of a sorted tree: the smaller number first. */
  function SortedPair(h: Hasher, a: Bytes32, b: Bytes32): Bytes32
  {
    h(if BigEndian(a) <= BigEndian(b) then Joined(a, b) else Joined(b, a))
  }

  lemma PairingWritten(h: Hasher, a: Bytes32, b: Bytes32)
    ensures Pairing(h, true)(a, b) == SortedPair(h, a, b)
    ensures Pairing(h, false)(a, b) == h(Joined(a, b))
  {
    hide Leq, BigEndian;
    LeqIsNumeric(a, b);
    assert NodeInput(a, b) == Joined(a, b) && NodeInput(b, a) == Joined(b, a);
    assert PairInput(true, a, b) == if BigEndian(a) <= BigEndian(b) then Joined(a, b) else Joined(b, a);
    assert Pairing(h, true)(a, b) == h(PairInput(true, a, b));
    assert Pairing(h, false)(a, b) == h(PairInput(false, a, b));
  }

  lemma OneItemRoot(h: Hasher, sorted: bool, x: Bytes)
    ensures Root(h, sorted, [x]) == Some(h([0] + x))
  {
    assert Height(1) == 0;
  }

  /** Two items: the leaf hashes, the numerically smaller one first if sorted. */
  lemma TwoItemRoot(h: Hasher, x: Bytes, y: Bytes)
    ensures var p, q := h([0] + x), h([0] + y);
            && Root(h, true, [x, y]) == Some(h(if BigEndian(p) <= BigEndian(q) then Joined(p, q) else Joined(q, p)))
            && Root(h, false, [x, y]) == Some(h(Joined(p, q)))
  {
    hide Leq, BigEndian, Pairing;
    PairingWritten(h, h([0] + x), h([0] + y));
    RootOfTwo(h, true, x, y);
    RootOfTwo(h, false, x, y);
  }

  lemma RootOfTwo(h: Hasher, sorted: bool, x: Bytes, y: Bytes)
    ensures Root(h, sorted, [x, y]) == Some(Pairing(h, sorted)(h([0] + x), h([0] + y)))
  {
    hide Pairing;
    var pair, leaves := Pairing(h, sorted), Leaves(h, [x, y]);
    assert Height(2) == 1 by { assert Height(1) == 0; }
    assert LevelLen(2, 0) == 2 && RightChild(2, 0) == 1;
    assert Node(pair, leaves, 1, 0) == pair(leaves[0], leaves[1]);
  }

  /** Three items: the third leaf is paired with itself. */
  lemma ThreeItemRoot(h: Hasher, x: Bytes, y: Bytes, z: Bytes)
    ensures var p, q, r := h([0] + x), h([0] + y), h([0] + z);
            Root(h, true, [x, y, z]) == Some(SortedPair(h, SortedPair(h, p, q), h(Joined(r, r))))
  {
    hide Leq, BigEndian, Pairing;
    var p, q, r := h([0] + x), h([0] + y), h([0] + z);
    RootOfThree(h, x, y, z);
    PairingWritten(h, p, q);
    PairingWritten(h, r, r);
    PairingWritten(h, SortedPair(h, p, q), h(Joined(r, r)));
  }

  lemma RootOfThree(h: Hasher, x: Bytes, y: Bytes, z: Bytes)
    ensures var p, q, r, pair := h([0] + x), h([0] + y), h([0] + z), Pairing(h, true);
            Root(h, true, [x, y, z]) == Some(pair(pair(p, q), pair(r, r)))
  {
    hide Pairing;
    var pair, leaves := Pairing(h, true), Leaves(h, [x, y, z]);
    assert Height(3) == 2 && LevelLen(3, 0) == 3 && LevelLen(3, 1) == 2;
    assert Node(pair, leaves, 1, 0) == pair(leaves[0], leaves[1]);
    assert Node(pair, leaves, 1, 1) == pair(leaves[2], leaves[2]);
  }
}
