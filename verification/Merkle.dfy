/** Merkle roots and proofs over encrypted chunks; the hash function is a parameter. */
module Merkle {
  import opened Bytes

  type Hash = seq<byte> -> Bytes32

  datatype MerkleProof = MerkleProof(leafIndex: nat, siblings: seq<Bytes32>)

  function NodeHash(h: Hash, left: Bytes32, right: Bytes32): Bytes32 {
    h(Join(left, right))
  }

  function Join(left: seq<byte>, right: seq<byte>): seq<byte> {
    left + right
  }

  /** An odd level repeats its last node. */
  function Padded(level: seq<Bytes32>): (p: seq<Bytes32>)
    requires |level| > 1
    ensures |p| % 2 == 0 && |level| <= |p| <= |level| + 1
    ensures p[..|level|] == level
  {
    if |level| % 2 == 1 then level + [level[|level| - 1]] else level
  }

  function Above(h: Hash, level: seq<Bytes32>): (up: seq<Bytes32>)
    requires |level| % 2 == 0
    ensures |up| == |level| / 2
  {
    seq(|level| / 2, i requires 0 <= i < |level| / 2 => NodeHash(h, level[2 * i], level[2 * i + 1]))
  }

  function RootOf(h: Hash, level: seq<Bytes32>): Bytes32
    requires |level| > 0
    decreases |level|
  {
    if |level| == 1 then level[0] else RootOf(h, Above(h, Padded(level)))
  }

  /** `idx ^ 1` */
  function Sibling(i: nat): nat {
    if i % 2 == 0 then i + 1 else i - 1
  }

  function SiblingPath(h: Hash, level: seq<Bytes32>, i: nat): seq<Bytes32>
    requires i < |level|
    decreases |level|
  {
    if |level| == 1 then []
    else
      var p := Padded(level);
      [p[Sibling(i)]] + SiblingPath(h, Above(h, p), i / 2)
  }

  function Leaves(h: Hash, chunks: seq<seq<byte>>): (ls: seq<Bytes32>)
    ensures |ls| == |chunks|
    ensures forall i :: 0 <= i < |chunks| ==> ls[i] == h(chunks[i])
  {
    seq(|chunks|, i requires 0 <= i < |chunks| => h(chunks[i]))
  }

  function ComputeRoot(h: Hash, chunks: seq<seq<byte>>): Bytes32 {
    if chunks == [] then ZERO32 else RootOf(h, Leaves(h, chunks))
  }

  function ProofFor(h: Hash, chunks: seq<seq<byte>>, i: nat): MerkleProof
    requires i < |chunks|
  {
    MerkleProof(i, SiblingPath(h, Leaves(h, chunks), i))
  }

  /** Rehash a node with its siblings, from leaf to root. */
  function Climb(h: Hash, current: Bytes32, idx: nat, siblings: seq<Bytes32>): Bytes32
    decreases |siblings|
  {
    if siblings == [] then current
    else
      var up := if idx % 2 == 0 then NodeHash(h, current, siblings[0]) else NodeHash(h, siblings[0], current);
      Climb(h, up, idx / 2, siblings[1..])
  }

  predicate Verifies(h: Hash, data: seq<byte>, proof: MerkleProof, root: Bytes32) {
    Climb(h, h(data), proof.leafIndex, proof.siblings) == root
  }

  method VerifyChunk(h: Hash, data: seq<byte>, proof: MerkleProof, root: Bytes32) returns (ok: bool)
    ensures ok == Verifies(h, data, proof, root)
  {
    var current: Bytes32 := h(data);
    var idx := proof.leafIndex;
    for k := 0 to |proof.siblings|
      invariant idx >= 0
      invariant Climb(h, current, idx, proof.siblings[k..]) == Climb(h, h(data), proof.leafIndex, proof.siblings)
    {
      var sibling := proof.siblings[k];
      assert proof.siblings[k..][1..] == proof.siblings[k + 1..];
      current := if idx % 2 == 0 then NodeHash(h, current, sibling) else NodeHash(h, sibling, current);
      idx := idx / 2;
    }
    ok := current == root;
  }

  /** Every proof the tree gives out is accepted, whatever the number of chunks. */
  lemma ProofsVerify(h: Hash, chunks: seq<seq<byte>>, i: nat)
    requires i < |chunks|
    ensures Verifies(h, chunks[i], ProofFor(h, chunks, i), ComputeRoot(h, chunks))
  {
    ClimbReachesRoot(h, Leaves(h, chunks), i);
  }

  lemma {:induction false} ClimbReachesRoot(h: Hash, level: seq<Bytes32>, i: nat)
    requires i < |level|
    ensures Climb(h, level[i], i, SiblingPath(h, level, i)) == RootOf(h, level)
    decreases |level|
  {
    if |level| > 1 {
      var p := Padded(level);
      var up := Above(h, p);
      var path := SiblingPath(h, level, i);
      ClimbReachesRoot(h, up, i / 2);
      StepUp(h, p, i);
      assert p[i] == p[..|level|][i];
      assert path[0] == p[Sibling(i)] && path[1..] == SiblingPath(h, up, i / 2);
    }
  }

  lemma StepUp(h: Hash, p: seq<Bytes32>, i: nat)
    requires |p| % 2 == 0 && i < |p|
    ensures Sibling(i) < |p|
    ensures Above(h, p)[i / 2] ==
            if i % 2 == 0 then NodeHash(h, p[i], p[Sibling(i)]) else NodeHash(h, p[Sibling(i)], p[i])
  {
  }

  /** Two different inputs with one hash. */
  predicate Collides(h: Hash, a: seq<byte>, b: seq<byte>) {
    a != b && h(a) == h(b)
  }

  /** What is hashed at one level on the way up. */
  function Pair(current: Bytes32, idx: nat, sibling: Bytes32): seq<byte> {
    if idx % 2 == 0 then Join(current, sibling) else Join(sibling, current)
  }

  /** Two ways up from the same leaf position meet in a collision at some level. */
  predicate PathCollides(h: Hash, x: Bytes32, y: Bytes32, idx: nat, xs: seq<Bytes32>, ys: seq<Bytes32>)
    requires |xs| == |ys|
    decreases |xs|
  {
    xs != [] &&
    (|| Collides(h, Pair(x, idx, xs[0]), Pair(y, idx, ys[0]))
     || PathCollides(h, h(Pair(x, idx, xs[0])), h(Pair(y, idx, ys[0])), idx / 2, xs[1..], ys[1..]))
  }

  /** A proof of the tree's own shape (same leaf, same depth) binds the position too: what it accepts
      is the chunk at that leaf, or the two ways up exhibit a collision. */
  lemma OwnShapeBindsPosition(h: Hash, chunks: seq<seq<byte>>, i: nat, data: seq<byte>, proof: MerkleProof)
    requires i < |chunks| && proof.leafIndex == i && |proof.siblings| == |ProofFor(h, chunks, i).siblings|
    requires Verifies(h, data, proof, ComputeRoot(h, chunks))
    ensures var own := ProofFor(h, chunks, i);
            || (data == chunks[i] && proof == own)
            || Collides(h, data, chunks[i])
            || PathCollides(h, h(data), h(chunks[i]), i, proof.siblings, own.siblings)
  {
    ProofsVerify(h, chunks, i);
    ClimbInjective(h, h(data), h(chunks[i]), i, proof.siblings, ProofFor(h, chunks, i).siblings);
  }

  lemma {:induction false} ClimbInjective(h: Hash, x: Bytes32, y: Bytes32, idx: nat, xs: seq<Bytes32>, ys: seq<Bytes32>)
    requires |xs| == |ys| && Climb(h, x, idx, xs) == Climb(h, y, idx, ys)
    ensures (x == y && xs == ys) || PathCollides(h, x, y, idx, xs, ys)
    decreases |xs|
  {
    if xs != [] {
      ClimbInjective(h, h(Pair(x, idx, xs[0])), h(Pair(y, idx, ys[0])), idx / 2, xs[1..], ys[1..]);
      if !PathCollides(h, x, y, idx, xs, ys) {
        if idx % 2 == 0 {
          JoinInjective(x, xs[0], y, ys[0]);
        } else {
          JoinInjective(xs[0], x, ys[0], y);
        }
        assert xs == [xs[0]] + xs[1..] && ys == [ys[0]] + ys[1..];
      }
    }
  }

  lemma JoinInjective(l: Bytes32, r: Bytes32, l': Bytes32, r': Bytes32)
    requires Join(l, r) == Join(l', r')
    ensures l == l' && r == r'
  {
    assert Join(l, r)[..32] == l && Join(l', r')[..32] == l';
    assert Join(l, r)[32..] == r && Join(l', r')[32..] == r';
  }

  // ---------------------------------------------------------------- any proof at all

  /** Size of what is hashed at an inner node: two hashes. Leaves are hashed without a tag, so a chunk
      of this size can be mistaken for an inner node. */
  const NODE_SIZE: nat := 64

  function Pairs(p: seq<Bytes32>): (ps: seq<seq<byte>>)
    requires |p| % 2 == 0
    ensures |ps| == |p| / 2
    ensures forall i :: 0 <= i < |ps| ==> |ps[i]| == NODE_SIZE && ps[i] == Join(p[2 * i], p[2 * i + 1])
  {
    seq(|p| / 2, i requires 0 <= i < |p| / 2 => Join(p[2 * i], p[2 * i + 1]))
  }

  /** Everything hashed above a level on the way to the root. */
  function NodeInputs(h: Hash, level: seq<Bytes32>): (xs: seq<seq<byte>>)
    requires |level| > 0
    ensures forall x :: x in xs ==> |x| == NODE_SIZE
    decreases |level|
  {
    if |level| == 1 then [] else Pairs(Padded(level)) + NodeInputs(h, Above(h, Padded(level)))
  }

  /** Everything hashed for the tree: its chunks and its inner nodes. */
  function TreeInputs(h: Hash, chunks: seq<seq<byte>>): seq<seq<byte>>
    requires chunks != []
  {
    chunks + NodeInputs(h, Leaves(h, chunks))
  }

  /** Everything hashed when a proof is checked, from the data up. */
  function PathInputs(h: Hash, data: seq<byte>, idx: nat, siblings: seq<Bytes32>): (xs: seq<seq<byte>>)
    ensures |xs| == |siblings| + 1 && xs[0] == data
    decreases |siblings|
  {
    if siblings == [] then [data]
    else [data] + PathInputs(h, Pair(h(data), idx, siblings[0]), idx / 2, siblings[1..])
  }

  /** An input on the path and one of the tree, different but with one hash. */
  ghost predicate PathMeetsTree(h: Hash, path: seq<seq<byte>>, tree: seq<seq<byte>>) {
    exists i, j :: 0 <= i < |path| && 0 <= j < |tree| && Collides(h, path[i], tree[j])
  }

  /** `b` is an inner node with the hash of `a` as one of its halves. */
  predicate Follows(h: Hash, a: seq<byte>, b: seq<byte>) {
    |b| == NODE_SIZE && (b[..32] == h(a) || b[32..] == h(a))
  }

  lemma {:induction false} PathIsChain(h: Hash, data: seq<byte>, idx: nat, siblings: seq<Bytes32>)
    ensures var path := PathInputs(h, data, idx, siblings);
            && h(path[|siblings|]) == Climb(h, h(data), idx, siblings)
            && forall k :: 0 <= k < |siblings| ==> Follows(h, path[k], path[k + 1])
    decreases |siblings|
  {
    if siblings != [] {
      var up := Pair(h(data), idx, siblings[0]);
      PathIsChain(h, up, idx / 2, siblings[1..]);
      var path, above := PathInputs(h, data, idx, siblings), PathInputs(h, up, idx / 2, siblings[1..]);
      assert path[1..] == above;
      forall k | 0 <= k < |siblings| ensures Follows(h, path[k], path[k + 1]) {
        if k > 0 {
          assert path[k] == above[k - 1] && path[k + 1] == above[k];
        }
      }
    }
  }

  /** One step down: an input that hashes to a node of the level above either is one of that level's
      pairs, or collides with one. */
  lemma StepDown(h: Hash, level: seq<Bytes32>, x: seq<byte>) returns (j: nat)
    requires |level| > 1 && h(x) in Above(h, Padded(level))
    ensures j < |Pairs(Padded(level))|
    ensures x == Pairs(Padded(level))[j] || Collides(h, x, Pairs(Padded(level))[j])
  {
    j :| 0 <= j < |Above(h, Padded(level))| && Above(h, Padded(level))[j] == h(x);
  }

  lemma HalvesAreNodes(level: seq<Bytes32>, j: nat)
    requires |level| > 1 && j < |Pairs(Padded(level))|
    ensures Pairs(Padded(level))[j][..32] in level && Pairs(Padded(level))[j][32..] in level
  {
    var p := Padded(level);
    assert forall i :: 0 <= i < |p| ==> p[i] in level;
    assert Pairs(p)[j][..32] == p[2 * j] && Pairs(p)[j][32..] == p[2 * j + 1];
  }

  lemma MeetsMore(h: Hash, path: seq<seq<byte>>, a: seq<seq<byte>>, b: seq<seq<byte>>)
    requires PathMeetsTree(h, path, a) || PathMeetsTree(h, path, b)
    ensures PathMeetsTree(h, path, a + b)
  {
    if PathMeetsTree(h, path, a) {
      var i, j :| 0 <= i < |path| && 0 <= j < |a| && Collides(h, path[i], a[j]);
      assert (a + b)[j] == a[j];
    } else {
      var i, j :| 0 <= i < |path| && 0 <= j < |b| && Collides(h, path[i], b[j]);
      assert (a + b)[|a| + j] == b[j];
    }
  }

  lemma WalkStep(h: Hash, level: seq<Bytes32>, path: seq<seq<byte>>, k: nat) returns (below: nat)
    requires |level| > 1 && k < |path| && h(path[k]) in Above(h, Padded(level))
    requires forall i :: 0 <= i < |path| - 1 ==> Follows(h, path[i], path[i + 1])
    ensures || PathMeetsTree(h, path, Pairs(Padded(level)))
            || path[0] in Pairs(Padded(level))
            || (below < |path| && h(path[below]) in level)
  {
    var j := StepDown(h, level, path[k]);
    below := 0;
    if path[k] == Pairs(Padded(level))[j] && k > 0 {
      HalvesAreNodes(level, j);
      below := k - 1;
      assert Follows(h, path[below], path[below + 1]);
    }
  }

  /** Walking down from the root: unless the path meets the tree in a collision or already starts as
      one of its inner nodes, some input on it hashes to a node of the level. */
  lemma {:induction false} WalkDown(h: Hash, level: seq<Bytes32>, path: seq<seq<byte>>) returns (k: nat)
    requires |level| > 0 && path != [] && h(path[|path| - 1]) == RootOf(h, level)
    requires forall i :: 0 <= i < |path| - 1 ==> Follows(h, path[i], path[i + 1])
    ensures || PathMeetsTree(h, path, NodeInputs(h, level))
            || path[0] in NodeInputs(h, level)
            || (k < |path| && h(path[k]) in level)
    decreases |level|
  {
    if |level| == 1 {
      k := |path| - 1;
    } else {
      var pairs, up := Pairs(Padded(level)), Above(h, Padded(level));
      var above := NodeInputs(h, up);
      assert NodeInputs(h, level) == pairs + above;
      k := WalkDown(h, up, path);
      if PathMeetsTree(h, path, above) {
        MeetsMore(h, path, pairs, above);
      } else if path[0] !in above {
        k := WalkStep(h, level, path, k);
        if PathMeetsTree(h, path, pairs) {
          MeetsMore(h, path, pairs, above);
        }
      }
    }
  }

  /** What any proof can make the gate accept, whatever its index and length: a chunk, an inner node
      of the tree, something below a chunk that has the size of an inner node, or the path meets the
      tree in a collision. */
  lemma GateAccepts(h: Hash, chunks: seq<seq<byte>>, data: seq<byte>, proof: MerkleProof)
    requires chunks != [] && Verifies(h, data, proof, ComputeRoot(h, chunks))
    ensures var path := PathInputs(h, data, proof.leafIndex, proof.siblings);
            || data in chunks
            || data in NodeInputs(h, Leaves(h, chunks))
            || (exists k :: 0 < k < |path| && path[k] in chunks && |path[k]| == NODE_SIZE)
            || PathMeetsTree(h, path, TreeInputs(h, chunks))
  {
    var path := PathInputs(h, data, proof.leafIndex, proof.siblings);
    var leaves := Leaves(h, chunks);
    var nodes := NodeInputs(h, leaves);
    PathIsChain(h, data, proof.leafIndex, proof.siblings);
    var k := WalkDown(h, leaves, path);
    if PathMeetsTree(h, path, nodes) {
      var i, j :| 0 <= i < |path| && 0 <= j < |nodes| && Collides(h, path[i], nodes[j]);
      assert TreeInputs(h, chunks)[|chunks| + j] == nodes[j];
    } else if data !in nodes {
      var j :| 0 <= j < |leaves| && leaves[j] == h(path[k]);
      if path[k] == chunks[j] {
        assert k > 0 ==> Follows(h, path[k - 1], path[k]);
      } else {
        assert TreeInputs(h, chunks)[j] == chunks[j];
      }
    }
  }

  /** The gate is sound for every proof when neither the data nor any chunk has the size of an inner
      node: what it accepts is a chunk of the tree, or the path meets the tree in a collision. */
  lemma GateIsSound(h: Hash, chunks: seq<seq<byte>>, data: seq<byte>, proof: MerkleProof)
    requires chunks != [] && Verifies(h, data, proof, ComputeRoot(h, chunks))
    requires |data| != NODE_SIZE && forall x :: x in chunks ==> |x| != NODE_SIZE
    ensures || data in chunks
            || PathMeetsTree(h, PathInputs(h, data, proof.leafIndex, proof.siblings), TreeInputs(h, chunks))
  {
    GateAccepts(h, chunks, data, proof);
  }

  lemma PairPasses(h: Hash, p: seq<Bytes32>, x: seq<byte>) returns (proof: MerkleProof)
    requires |p| % 2 == 0 && x in Pairs(p)
    ensures Climb(h, h(x), proof.leafIndex, proof.siblings) == RootOf(h, Above(h, p))
  {
    var j :| 0 <= j < |Pairs(p)| && Pairs(p)[j] == x;
    assert Above(h, p)[j] == h(x);
    ClimbReachesRoot(h, Above(h, p), j);
    proof := MerkleProof(j, SiblingPath(h, Above(h, p), j));
  }

  /** The condition is needed: every inner node of every tree is accepted as if it were a chunk. */
  lemma {:induction false} InnerNodesPass(h: Hash, level: seq<Bytes32>, x: seq<byte>) returns (proof: MerkleProof)
    requires |level| > 0 && x in NodeInputs(h, level)
    ensures Climb(h, h(x), proof.leafIndex, proof.siblings) == RootOf(h, level)
    decreases |level|
  {
    assert |level| > 1;
    var pairs, up := Pairs(Padded(level)), Above(h, Padded(level));
    if x in pairs {
      proof := PairPasses(h, Padded(level), x);
    } else {
      proof := InnerNodesPass(h, up, x);
    }
  }

  /** Hence, for chunks that cannot be taken for inner nodes, the gate accepts with some proof exactly
      what was hashed for the tree, collisions aside. */
  lemma GateAcceptsTheTree(h: Hash, chunks: seq<seq<byte>>, data: seq<byte>)
    requires chunks != [] && forall x :: x in chunks ==> |x| != NODE_SIZE
    ensures data in TreeInputs(h, chunks) ==> exists proof :: Verifies(h, data, proof, ComputeRoot(h, chunks))
    ensures forall proof :: Verifies(h, data, proof, ComputeRoot(h, chunks)) ==>
              data in TreeInputs(h, chunks)
              || PathMeetsTree(h, PathInputs(h, data, proof.leafIndex, proof.siblings), TreeInputs(h, chunks))
  {
    if data in chunks {
      var i :| 0 <= i < |chunks| && chunks[i] == data;
      ProofsVerify(h, chunks, i);
    } else if data in NodeInputs(h, Leaves(h, chunks)) {
      var proof := InnerNodesPass(h, Leaves(h, chunks), data);
      assert Verifies(h, data, proof, ComputeRoot(h, chunks));
    }
    forall proof | Verifies(h, data, proof, ComputeRoot(h, chunks))
      ensures data in TreeInputs(h, chunks)
              || PathMeetsTree(h, PathInputs(h, data, proof.leafIndex, proof.siblings), TreeInputs(h, chunks))
    {
      GateAccepts(h, chunks, data, proof);
    }
  }

  /** The smallest such input: the two leaf hashes of any two chunks, with an empty proof. */
  lemma InnerNodePassesAsChunk(h: Hash, a: seq<byte>, b: seq<byte>)
    ensures Verifies(h, Join(h(a), h(b)), MerkleProof(0, []), ComputeRoot(h, [a, b]))
  {
    var leaves := Leaves(h, [a, b]);
    assert leaves == [h(a), h(b)];
    var up := Above(h, Padded(leaves));
    assert up == [NodeHash(h, h(a), h(b))];
    assert RootOf(h, leaves) == RootOf(h, up) == up[0];
  }

  /** So is anything below a chunk that has the size of an inner node, with one sibling more. */
  lemma BelowNodeSizedChunkPasses(h: Hash, data: seq<byte>, right: Bytes32)
    ensures Verifies(h, data, MerkleProof(0, [right]), ComputeRoot(h, [Join(h(data), right)]))
  {
    assert Climb(h, NodeHash(h, h(data), right), 0, []) == NodeHash(h, h(data), right);
  }
}
