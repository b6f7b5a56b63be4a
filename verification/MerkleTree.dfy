/** The flat-vector Merkle tree: its construction, path extraction and the two
    proof checkers, each against the reference tree of `MerkleSpec`. */
module MerkleTree {
  import opened Bytes
  import opened TreeShape
  import opened MerkleSpec
  import opened Hashing

  datatype MerkleTree<T> = MerkleTree(leafCount: nat, nodes: seq<T>)

  /** One step of a path: the parent hash and the one sibling of the child. */
  datatype ProofEntry<T> = ProofEntry(target: T, left: Option<T>, right: Option<T>)

  function NextLevelLen(levelLen: nat): nat
  {
    if levelLen == 1 then 0 else (levelLen + 1) / 2
  }

  // ----- layout

  /** `level` occupies the range of `nodes` that begins at `start`. */
  ghost predicate InPlace<T>(nodes: seq<T>, level: seq<T>, start: nat)
  {
    start + |level| <= |nodes| && nodes[start..start + |level|] == level
  }

  ghost predicate LevelInPlace<T>(nodes: seq<T>, pair: (T, T) -> T, leaves: seq<T>, k: nat)
  {
    InPlace(nodes, Level(pair, leaves, k), LevelStart(|leaves|, k))
  }

  /** Each of the first `count` levels sits at its own offset. */
  ghost predicate LevelsInPlace<T>(nodes: seq<T>, pair: (T, T) -> T, leaves: seq<T>, count: nat)
  {
    forall k: nat :: k < count ==> LevelInPlace(nodes, pair, leaves, k)
  }

  ghost predicate LaidOut<T>(mt: MerkleTree<T>, pair: (T, T) -> T, leaves: seq<T>)
  {
    && mt.leafCount == |leaves|
    && LevelsInPlace(mt.nodes, pair, leaves, Height(|leaves|) + 1)
    && |mt.nodes| == NodeCount(|leaves|)
  }

  /** What a finished tree over `items` looks like. */
  ghost predicate Represents(mt: MerkleTree<Bytes32>, h: Hasher, sorted: bool, items: seq<Bytes>)
  {
    LaidOut(mt, Pairing(h, sorted), Leaves(h, items))
  }

  // ----- construction

  /** The level above `level`, an odd tail paired with itself. */
  function Above<T>(pair: (T, T) -> T, level: seq<T>): (up: seq<T>)
    ensures |up| == HalfUp(|level|)
  {
    seq(HalfUp(|level|), i requires 0 <= i < HalfUp(|level|) =>
      pair(level[2 * i], level[RightChild(|level|, i)]))
  }

  lemma AboveIsNextLevel<T>(pair: (T, T) -> T, leaves: seq<T>, k: nat)
    ensures Above(pair, Level(pair, leaves, k)) == Level(pair, leaves, k + 1)
  {
    var level, up := Level(pair, leaves, k), Level(pair, leaves, k + 1);
    forall i: nat | i < |up|
      ensures up[i] == pair(level[2 * i], level[RightChild(|level|, i)])
    {
      assert up[i] == Node(pair, leaves, k + 1, i);
    }
  }

  lemma LevelsInPlaceExtend<T>(nodes: seq<T>, pair: (T, T) -> T, leaves: seq<T>, count: nat)
    requires LevelsInPlace(nodes, pair, leaves, count) && |nodes| == LevelStart(|leaves|, count)
    ensures LevelsInPlace(nodes + Level(pair, leaves, count), pair, leaves, count + 1)
  {
    hide Node;
    var all := nodes + Level(pair, leaves, count);
    forall k: nat | k < count + 1
      ensures LevelInPlace(all, pair, leaves, k)
    {
      if k < count {
        var level, start := Level(pair, leaves, k), LevelStart(|leaves|, k);
        assert LevelInPlace(nodes, pair, leaves, k);
        assert all[start..start + |level|] == nodes[start..start + |level|];
      }
    }
  }

  lemma LeavesInPlace<T>(pair: (T, T) -> T, leaves: seq<T>)
    ensures LevelsInPlace(leaves, pair, leaves, 1)
  {
    assert Level(pair, leaves, 0) == leaves;
  }

  /** First loop of the construction. */
  method PushLeaves(h: Hasher, items: seq<Bytes>) returns (nodes: seq<Bytes32>)
    ensures nodes == Leaves(h, items)
  {
    nodes := [];
    for j := 0 to |items|
      invariant nodes == Leaves(h, items)[..j]
    {
      nodes := nodes + [HashLeaf(h, items[j])];
    }
  }

  /** Inner loop of the construction: pushes one level. */
  method PushLevel(h: Hasher, sortedHashes: bool, nodes0: seq<Bytes32>,
                   prevLevelStart: nat, prevLevelLen: nat, levelLen: nat)
    returns (nodes: seq<Bytes32>)
    requires prevLevelStart + prevLevelLen <= |nodes0|
    requires levelLen == HalfUp(prevLevelLen)
    ensures nodes == nodes0 + Above(Pairing(h, sortedHashes), nodes0[prevLevelStart..prevLevelStart + prevLevelLen])
  {
    nodes := nodes0;
    ghost var prev := nodes0[prevLevelStart..prevLevelStart + prevLevelLen];
    ghost var up := Above(Pairing(h, sortedHashes), prev);
    for i := 0 to levelLen
      invariant nodes == nodes0 + up[..i]
    {
      var prevLevelIdx := 2 * i;
      var lsib := nodes[prevLevelStart + prevLevelIdx];
      var rsib := if prevLevelIdx + 1 < prevLevelLen
                  then nodes[prevLevelStart + prevLevelIdx + 1]
                  else nodes[prevLevelStart + prevLevelIdx];
      var hash := HashSiblings(h, sortedHashes, lsib, rsib);
      assert lsib == prev[2 * i] && rsib == prev[RightChild(prevLevelLen, i)];
      nodes := nodes + [hash];
    }
  }

  method HashSiblings(h: Hasher, sortedHashes: bool, lsib: Bytes32, rsib: Bytes32) returns (hash: Bytes32)
    ensures hash == h(PairInput(sortedHashes, lsib, rsib)) == Pairing(h, sortedHashes)(lsib, rsib)
  {
    if sortedHashes {
      if Leq(lsib, rsib) {
        hash := h(NodeInput(lsib, rsib));
      } else {
        hash := h(NodeInput(rsib, lsib));
      }
    } else {
      hash := h(NodeInput(lsib, rsib));
    }
  }

  method New(h: Hasher, items: seq<Bytes>, sortedHashes: bool) returns (mt: MerkleTree<Bytes32>)
    ensures Represents(mt, h, sortedHashes, items)
  {
    hide Node, Leaves;
    var n := |items|;
    var nodes := PushLeaves(h, items);
    var levelLen, levelStart := NextLevelLen(n), n;
    var prevLevelLen, prevLevelStart := n, 0;
    ghost var pair, leaves, k := Pairing(h, sortedHashes), Leaves(h, items), 0;
    LeavesInPlace(pair, leaves);
    assert LevelStart(n, 1) == n && LevelLen(n, 0) == n;
    while levelLen > 0
      invariant k <= Height(n)
      invariant prevLevelStart == LevelStart(n, k) && prevLevelLen == LevelLen(n, k)
      invariant levelStart == LevelStart(n, k + 1) == |nodes|
      invariant levelLen == NextLevelLen(prevLevelLen)
      invariant LevelsInPlace(nodes, pair, leaves, k + 1)
      decreases Height(n) - k
    {
      LevelLenHeight(n, k);
      assert LevelInPlace(nodes, pair, leaves, k);
      LevelsInPlaceExtend(nodes, pair, leaves, k + 1);
      AboveIsNextLevel(pair, leaves, k);
      nodes := PushLevel(h, sortedHashes, nodes, prevLevelStart, prevLevelLen, levelLen);
      prevLevelStart, prevLevelLen := levelStart, levelLen;
      levelStart := levelStart + levelLen;
      levelLen := NextLevelLen(levelLen);
      k := k + 1;
    }
    if n > 0 {
      LevelLenHeight(n, k);
    }
    mt := MerkleTree(n, nodes);
  }

  /** `nodes.iter().last()`. */
  function GetRoot<T>(mt: MerkleTree<T>): Option<T>
  {
    if mt.nodes == [] then None else Some(mt.nodes[|mt.nodes| - 1])
  }

  /** The last element of the vector is the root of the reference tree; only
      the tree without items has none. */
  lemma GetRootIsRoot(mt: MerkleTree<Bytes32>, h: Hasher, sorted: bool, items: seq<Bytes>)
    requires Represents(mt, h, sorted, items)
    ensures GetRoot(mt) == Root(h, sorted, items)
  {
    var n := |items|;
    if n > 0 {
      var top := Level(Pairing(h, sorted), Leaves(h, items), Height(n));
      LevelLenHeight(n, Height(n));
      assert LevelInPlace(mt.nodes, Pairing(h, sorted), Leaves(h, items), Height(n));
      assert top[0] == Top(Pairing(h, sorted), Leaves(h, items));
    }
  }

  // ----- paths

  function LeftSibling<T>(level: seq<T>, i: nat): Option<T>
    requires i < |level|
  {
    if i % 2 == 0 then None else Some(level[i - 1])
  }

  function RightSibling<T>(level: seq<T>, i: nat): Option<T>
    requires i < |level|
  {
    if i % 2 == 0 then Some(level[RightChild(|level|, i / 2)]) else None
  }

  /** The entry pushed on reaching level `k` from leaf `index`. */
  function EntryAt<T>(pair: (T, T) -> T, leaves: seq<T>, index: nat, k: nat): ProofEntry<T>
    requires index < |leaves| && k >= 1
  {
    var child, below := Ancestor(|leaves|, index, k - 1), Level(pair, leaves, k - 1);
    ProofEntry(Node(pair, leaves, k, Ancestor(|leaves|, index, k)),
               LeftSibling(below, child), RightSibling(below, child))
  }

  function PathOf<T>(pair: (T, T) -> T, leaves: seq<T>, index: nat, k: nat): (p: seq<ProofEntry<T>>)
    requires index < |leaves|
    ensures |p| == k
  {
    if k == 0 then [] else PathOf(pair, leaves, index, k - 1) + [EntryAt(pair, leaves, index, k)]
  }

  /** What holds in `FindPath` with the first `k` levels behind it. */
  ghost predicate Climbing<T>(pair: (T, T) -> T, leaves: seq<T>, index: nat, k: nat, nodeIndex: nat,
                              lsib: Option<T>, rsib: Option<T>, path: seq<ProofEntry<T>>)
    requires index < |leaves|
  {
    && nodeIndex == Ancestor(|leaves|, index, k)
    && if k == 0 then lsib.None? && rsib.None? && path == []
       else var child, below := Ancestor(|leaves|, index, k - 1), Level(pair, leaves, k - 1);
            && lsib == LeftSibling(below, child)
            && rsib == RightSibling(below, child)
            && path == PathOf(pair, leaves, index, k - 1)
  }

  lemma ClimbingStep<T>(pair: (T, T) -> T, leaves: seq<T>, index: nat, k: nat, nodeIndex: nat,
                        lsib: Option<T>, rsib: Option<T>, path: seq<ProofEntry<T>>)
    requires index < |leaves|
    requires Climbing(pair, leaves, index, k, nodeIndex, lsib, rsib, path)
    ensures nodeIndex < LevelLen(|leaves|, k)
    ensures k > 0 <==> lsib.Some? || rsib.Some?
    ensures k > 0 ==> lsib.None? != rsib.None?
    ensures var level := Level(pair, leaves, k);
            Climbing(pair, leaves, index, k + 1, nodeIndex / 2,
                     LeftSibling(level, nodeIndex), RightSibling(level, nodeIndex),
                     if k == 0 then path else path + [ProofEntry(level[nodeIndex], lsib, rsib)])
  {
  }

  /** Body of the loop of `FindPath`. */
  method ClimbLevel<T>(level: seq<T>, nodeIndex: nat, lsib0: Option<T>, rsib0: Option<T>, path0: seq<ProofEntry<T>>,
                       ghost pair: (T, T) -> T, ghost leaves: seq<T>, ghost index: nat, ghost k: nat)
    returns (lsib: Option<T>, rsib: Option<T>, path: seq<ProofEntry<T>>)
    requires index < |leaves| && level == Level(pair, leaves, k)
    requires Climbing(pair, leaves, index, k, nodeIndex, lsib0, rsib0, path0)
    ensures Climbing(pair, leaves, index, k + 1, nodeIndex / 2, lsib, rsib, path)
  {
    hide Climbing, Level;
    ClimbingStep(pair, leaves, index, k, nodeIndex, lsib0, rsib0, path0);
    path := path0;
    var target := level[nodeIndex];
    if lsib0.Some? || rsib0.Some? {
      assert lsib0.None? != rsib0.None?;  // the assertion made by `ProofEntry::new`
      path := path + [ProofEntry(target, lsib0, rsib0)];
    }
    if nodeIndex % 2 == 0 {
      lsib := None;
      rsib := if nodeIndex + 1 < |level| then Some(level[nodeIndex + 1]) else Some(level[nodeIndex]);
    } else {
      lsib := Some(level[nodeIndex - 1]);
      rsib := None;
    }
  }

  method FindPath<T>(mt: MerkleTree<T>, index: nat, ghost pair: (T, T) -> T, ghost leaves: seq<T>)
    returns (r: Option<seq<ProofEntry<T>>>)
    requires LaidOut(mt, pair, leaves)
    ensures r.Some? <==> index < |leaves|
    ensures r.Some? ==> r.value == PathOf(pair, leaves, index, Height(|leaves|))
  {
    hide Node, PathOf;
    if index >= mt.leafCount {
      return None;
    }
    ghost var n, k := |leaves|, 0;
    var levelLen, levelStart := mt.leafCount, 0;
    var path: seq<ProofEntry<T>> := [];
    var nodeIndex: nat := index;
    var lsib: Option<T>, rsib: Option<T> := None, None;
    while levelLen > 0
      invariant k <= Height(n) + 1
      invariant levelStart == LevelStart(n, k)
      invariant levelLen == if k <= Height(n) then LevelLen(n, k) else 0
      invariant Climbing(pair, leaves, index, k, nodeIndex, lsib, rsib, path)
      decreases Height(n) + 1 - k
    {
      LevelLenHeight(n, k);
      assert LevelInPlace(mt.nodes, pair, leaves, k);
      var level := mt.nodes[levelStart..levelStart + levelLen];
      lsib, rsib, path := ClimbLevel(level, nodeIndex, lsib, rsib, path, pair, leaves, index, k);
      nodeIndex := nodeIndex / 2;
      levelStart := levelStart + levelLen;
      levelLen := NextLevelLen(levelLen);
      k := k + 1;
    }
    LevelLenHeight(n, k);
    return Some(path);
  }

  lemma {:induction false} PathOfAt<T>(pair: (T, T) -> T, leaves: seq<T>, index: nat, k: nat, j: nat)
    requires index < |leaves| && j < k
    ensures PathOf(pair, leaves, index, k)[j] == EntryAt(pair, leaves, index, j + 1)
    decreases k
  {
    if j < k - 1 {
      PathOfAt(pair, leaves, index, k - 1, j);
    }
  }

  /** An entry carries one sibling, the next one of the climb. */
  lemma EntrySibling<T>(pair: (T, T) -> T, leaves: seq<T>, index: nat, j: nat)
    requires index < |leaves|
    ensures var e := EntryAt(pair, leaves, index, j + 1);
            && e.left.None? != e.right.None?
            && Climb(pair, leaves, index, j + 1)
               == Climb(pair, leaves, index, j) + [if e.left.Some? then e.left.value else e.right.value]
  {
  }

  /** Sibling hashes of a path, bottom first; an `index` out of range is a panic
      in the source, so callers stay in range. */
  method GetProof(mt: MerkleTree<Bytes32>, index: nat, ghost h: Hasher, ghost sorted: bool, ghost items: seq<Bytes>)
    returns (proof: seq<Bytes32>)
    requires Represents(mt, h, sorted, items)
    requires index < mt.leafCount
    ensures proof == ProofOf(h, sorted, items, index)
    ensures |proof| == Height(|items|)
  {
    proof := [];
    ghost var pair, leaves := Pairing(h, sorted), Leaves(h, items);
    var path := FindPath(mt, index, pair, leaves);
    var entries := path.value;
    for j := 0 to |entries|
      invariant proof == Climb(pair, leaves, index, j)
    {
      PathOfAt(pair, leaves, index, |entries|, j);
      EntrySibling(pair, leaves, index, j);
      var branch := entries[j];
      if branch.left.Some? {
        proof := proof + [branch.left.value];
      } else if branch.right.Some? {
        proof := proof + [branch.right.value];
      } else {
        assert false;  // the panic of the source cannot be reached
      }
    }
  }

  // ----- checking

  /** What one step of `Proof::verify` hashes: an absent sibling is the candidate. */
  function StepInput(candidate: Bytes32, e: ProofEntry<Bytes32>): Bytes
  {
    NodeInput(if e.left.Some? then e.left.value else candidate,
              if e.right.Some? then e.right.value else candidate)
  }

  /** `Proof::verify`: the fold stops at the first mismatch with a recorded parent. */
  predicate VerifyPath(h: Hasher, path: seq<ProofEntry<Bytes32>>, candidate: Bytes32)
  {
    path == [] ||
    (h(StepInput(candidate, path[0])) == path[0].target
     && VerifyPath(h, path[1..], h(StepInput(candidate, path[0]))))
  }

  /** The on-chain `verify_helper`. */
  method VerifyHelper(h: Hasher, leafContent: Bytes, proof: seq<Bytes32>, root: Bytes32) returns (ok: bool)
    ensures ok <==> Verifies(h, leafContent, proof, root)
  {
    var node := HashLeaf(h, leafContent);
    for i := 0 to |proof|
      invariant node == Fold(Pairing(h, true), HashLeaf(h, leafContent), proof[..i])
    {
      assert proof[..i + 1][..i] == proof[..i];
      node := HashSiblings(h, true, node, proof[i]);
    }
    assert proof[..|proof|] == proof;
    return root == node;
  }
}
