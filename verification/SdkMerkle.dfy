/** sdk/src/merkle.ts: the duplicate-last builder and its proofs, as written. */
module SdkMerkle {
  import opened Bytes
  import opened Merkle
  import opened Wrappers

  /** `DistributionLeaf`: the two numbers are unbounded. */
  datatype DistributionLeaf = DistributionLeaf(holder: Bytes32, epoch: int, amount: int)

  datatype MerkleTreeBuildResult =
    MerkleTreeBuildResult(root: Bytes32, proofs: map<Bytes32, seq<Bytes32>>)

  predicate Encodable(l: DistributionLeaf) {
    l.epoch >= 0 && l.amount >= 0
  }

  /** The leaf that the eight-octet encoding stands for: numbers wrap at 2^64. */
  function Wrapped(l: DistributionLeaf): Leaf {
    Leaf(l.holder, l.epoch % (U64_MAX + 1), l.amount % (U64_MAX + 1))
  }

  function AllWrapped(ls: seq<DistributionLeaf>): (r: seq<Leaf>)
    ensures |r| == |ls|
  {
    seq(|ls|, i requires 0 <= i < |ls| => Wrapped(ls[i]))
  }

  lemma WrappedWord(v: int)
    ensures LeBytes(8, v) == LeBytes(8, v % (U64_MAX + 1))
  {
    U64RoundTrip(v);
    LeBytesOfValue(LeBytes(8, v));
  }

  /** `hashLeaf`: negative numbers throw, larger ones are truncated silently. */
  method HashLeaf(h: Hash, leaf: DistributionLeaf) returns (r: Result<Bytes32, string>)
    ensures r.Success? <==> Encodable(leaf)
    ensures r.Success? ==> r.value == LeafHash(h, Wrapped(leaf))
    ensures r.Success? && leaf.epoch <= U64_MAX && leaf.amount <= U64_MAX ==>
              r.value == LeafHash(h, Leaf(leaf.holder, leaf.epoch, leaf.amount))
  {
    var e :- U64LeBytes(leaf.epoch);
    var a :- U64LeBytes(leaf.amount);
    WrappedWord(leaf.epoch);
    WrappedWord(leaf.amount);
    r := Success(h(leaf.holder + e + a));
  }

  /** No later one of the first `n` leaves has the same holder as leaf `i`. */
  ghost predicate LastOfHolder(leaves: seq<DistributionLeaf>, n: nat, i: nat)
    requires i < n <= |leaves|
  {
    forall j :: i < j < n ==> leaves[j].holder != leaves[i].holder
  }

  /** The proof computed for leaf `i`. */
  function ProofAt(h: Hash, leaves: seq<DistributionLeaf>, i: nat): seq<Bytes32> {
    ProofFor(h, DuplicateLast, LeafHashes(h, AllWrapped(leaves)), i)
  }

  /** The proofs filed for the first `n` leaves: the holder's last leaf wins. */
  ghost predicate ProofsFiled(h: Hash, leaves: seq<DistributionLeaf>, n: nat, proofs: map<Bytes32, seq<Bytes32>>)
    requires n <= |leaves|
  {
    && (forall i :: 0 <= i < n ==> leaves[i].holder in proofs)
    && (forall k <- proofs :: exists i :: 0 <= i < n && leaves[i].holder == k)
    && forall i :: 0 <= i < n && LastOfHolder(leaves, n, i) ==>
         proofs[leaves[i].holder] == ProofAt(h, leaves, i)
  }

  /**
   `buildMerkleTree`: fails exactly on an empty list or a negative number; the root is that
   of the duplicating rule, and each holder gets the proof of the holder's last leaf.
  */
  method BuildMerkleTree(h: Hash, leaves: seq<DistributionLeaf>)
    returns (r: Result<MerkleTreeBuildResult, string>)
    ensures r.Success? <==> leaves != [] && forall i :: 0 <= i < |leaves| ==> Encodable(leaves[i])
    ensures r.Success? ==>
              && r.value.root == DistributionRoot(h, DuplicateLast, AllWrapped(leaves))
              && ProofsFiled(h, leaves, |leaves|, r.value.proofs)
  {
    if leaves == [] {
      return Failure("buildMerkleTree: at least one leaf is required");
    }
    var leafHashes :- HashLeaves(h, leaves);
    var layers, root := BuildLayers(h, leafHashes);
    var proofs := FileProofs(h, leaves, layers);
    r := Success(MerkleTreeBuildResult(root, proofs));
  }

  /** `leaves.map(hashLeaf)` */
  method HashLeaves(h: Hash, leaves: seq<DistributionLeaf>) returns (r: Result<seq<Bytes32>, string>)
    ensures r.Success? <==> forall i :: 0 <= i < |leaves| ==> Encodable(leaves[i])
    ensures r.Success? ==> r.value == LeafHashes(h, AllWrapped(leaves))
  {
    var leafHashes: seq<Bytes32> := [];
    for i := 0 to |leaves|
      invariant |leafHashes| == i
      invariant forall k :: 0 <= k < i ==> Encodable(leaves[k]) && leafHashes[k] == LeafHash(h, Wrapped(leaves[k]))
    {
      var d :- HashLeaf(h, leaves[i]);
      leafHashes := leafHashes + [d];
    }
    r := Success(leafHashes);
  }

  /** The loop over leaves: `proofs.set` overwrites an earlier entry of the same holder. */
  method FileProofs(h: Hash, leaves: seq<DistributionLeaf>, layers: seq<seq<Bytes32>>)
    returns (proofs: map<Bytes32, seq<Bytes32>>)
    requires layers == Levels(h, DuplicateLast, LeafHashes(h, AllWrapped(leaves)))
    ensures ProofsFiled(h, leaves, |leaves|, proofs)
  {
    proofs := map[];
    for leafIndex := 0 to |leaves|
      invariant ProofsFiled(h, leaves, leafIndex, proofs)
    {
      var proof := ProofFromLayers(h, LeafHashes(h, AllWrapped(leaves)), layers, leafIndex);
      ghost var before := proofs;
      proofs := proofs[leaves[leafIndex].holder := proof];
      FileOne(h, leaves, leafIndex, before, proofs, proof);
    }
  }

  lemma FileOne(h: Hash, leaves: seq<DistributionLeaf>, n: nat, before: map<Bytes32, seq<Bytes32>>,
                after: map<Bytes32, seq<Bytes32>>, proof: seq<Bytes32>)
    requires n < |leaves| && ProofsFiled(h, leaves, n, before)
    requires after == before[leaves[n].holder := proof] && proof == ProofAt(h, leaves, n)
    ensures ProofsFiled(h, leaves, n + 1, after)
  {
    forall k <- after ensures exists i :: 0 <= i < n + 1 && leaves[i].holder == k {
      if k in before {
        var i :| 0 <= i < n && leaves[i].holder == k;
      } else {
        assert leaves[n].holder == k;
      }
    }
    forall i | 0 <= i < n + 1 && LastOfHolder(leaves, n + 1, i)
      ensures leaves[i].holder in after && after[leaves[i].holder] == ProofAt(h, leaves, i)
    {
      if i < n {
        assert leaves[n].holder != leaves[i].holder && LastOfHolder(leaves, n, i);
      }
    }
  }

  /** The layer loop: the last node of an odd layer is hashed with itself. */
  method BuildLayers(h: Hash, leafHashes: seq<Bytes32>) returns (layers: seq<seq<Bytes32>>, root: Bytes32)
    requires leafHashes != []
    ensures layers == Levels(h, DuplicateLast, leafHashes)
    ensures root == Root(h, DuplicateLast, leafHashes)
  {
    layers := [leafHashes];
    var current := leafHashes;
    while |current| > 1
      invariant current != []
      invariant layers + Levels(h, DuplicateLast, current)[1..] == Levels(h, DuplicateLast, leafHashes)
      invariant Root(h, DuplicateLast, current) == Root(h, DuplicateLast, leafHashes)
      decreases |current|
    {
      var next: seq<Bytes32> := [];
      var i := 0;
      while i < |current|
        invariant i == 2 * |next| <= |current| + 1
        invariant next == NextLevel(h, DuplicateLast, current)[..|next|]
      {
        assert NextLevel(h, DuplicateLast, current)[|next|] == Parent(h, DuplicateLast, current, |next|);
        var left := current[i];
        var right := if i + 1 < |current| then current[i + 1] else current[i];
        next := next + [HashPair(h, left, right)];
        i := i + 2;
      }
      assert next == NextLevel(h, DuplicateLast, current);
      ghost var after := Levels(h, DuplicateLast, next);
      assert Levels(h, DuplicateLast, current)[1..] == after == [next] + after[1..];
      assert layers + after == (layers + [next]) + after[1..];
      layers := layers + [next];
      current := next;
    }
    assert Levels(h, DuplicateLast, current)[1..] == [];
    root := current[0];
  }

  /** The proof loop: a sibling outside the layer is skipped. */
  method ProofFromLayers(ghost h: Hash, ghost leafHashes: seq<Bytes32>, layers: seq<seq<Bytes32>>, leafIndex: nat)
    returns (proof: seq<Bytes32>)
    requires layers == Levels(h, DuplicateLast, leafHashes)
    ensures proof == ProofFor(h, DuplicateLast, leafHashes, leafIndex)
  {
    proof := [];
    var index := leafIndex;
    ghost var current := leafHashes;
    for depth := 0 to |layers| - 1
      invariant layers[depth..] == Levels(h, DuplicateLast, current)
      invariant proof + ProofFor(h, DuplicateLast, current, index) == ProofFor(h, DuplicateLast, leafHashes, leafIndex)
    {
      var layer := layers[depth];
      assert layer == layers[depth..][0] == current && |layers[depth..]| > 1;
      ghost var rest := ProofFor(h, DuplicateLast, NextLevel(h, DuplicateLast, current), index / 2);
      var siblingIndex := Sibling(index);
      if siblingIndex < |layer| {
        assert proof + ([layer[siblingIndex]] + rest) == (proof + [layer[siblingIndex]]) + rest;
        proof := proof + [layer[siblingIndex]];
      } else {
        assert [] + rest == rest;
      }
      index := index / 2;
      assert layers[depth..][1..] == layers[depth + 1..];
      current := NextLevel(h, DuplicateLast, current);
    }
    assert proof + [] == proof;
  }

  /** `verifyProof` */
  method VerifyProof(h: Hash, leaf: DistributionLeaf, proof: seq<Bytes32>, root: Bytes32)
    returns (r: Result<bool, string>)
    ensures r.Success? <==> Encodable(leaf)
    ensures r.Success? ==> (r.value <==> FoldProof(h, LeafHash(h, Wrapped(leaf)), proof) == root)
  {
    var computed :- HashLeaf(h, leaf);
    ghost var start := computed;
    for i := 0 to |proof|
      invariant computed == FoldProof(h, start, proof[..i])
    {
      assert proof[..i + 1][..i] == proof[..i];
      computed := HashPair(h, computed, proof[i]);
    }
    assert proof[..|proof|] == proof;
    r := Success(computed == root);
  }
}
