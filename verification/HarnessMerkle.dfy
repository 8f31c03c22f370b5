/** tests/utils/merkle.ts: the integration tests' own builder, which must match the program. */
module HarnessMerkle {
  import opened Bytes
  import opened Merkle
  import MerkleShape
  import opened Wrappers

  /** `MerkleLeaf`: the two numbers are unbounded. */
  datatype MerkleLeaf = MerkleLeaf(holder: Bytes32, epoch: int, amount: int)

  /** `hashLeaf`: writing a number outside the u64 range throws. */
  method HashLeaf(h: Hash, leaf: MerkleLeaf) returns (r: Result<Bytes32, string>)
    ensures r.Success? <==> 0 <= leaf.epoch <= U64_MAX && 0 <= leaf.amount <= U64_MAX
    ensures r.Success? ==> r.value == LeafHash(h, Leaf(leaf.holder, leaf.epoch, leaf.amount))
  {
    if !(0 <= leaf.epoch <= U64_MAX && 0 <= leaf.amount <= U64_MAX) {
      return Failure("value out of range");
    }
    var e := U64LeBytes(leaf.epoch);
    var a := U64LeBytes(leaf.amount);
    r := Success(h(leaf.holder + e.value + a.value));
  }

  /** `MerkleTree`: its layers never change after construction. */
  datatype MerkleTree = MerkleTree(layers: seq<seq<Bytes32>>) {

    /** `root` */
    function RootNode(): Bytes32
      requires layers != [] && layers[|layers| - 1] != []
    {
      layers[|layers| - 1][0]
    }

    /** `proofFor`: throws when the index is not that of a leaf. */
    method ProofFor(ghost h: Hash, ghost leaves: seq<Bytes32>, index: int) returns (r: Result<seq<Bytes32>, string>)
      requires leaves != [] && layers == Levels(h, CarryUp, leaves)
      ensures r.Success? <==> 0 <= index < |leaves|
      ensures r.Success? ==> r.value == Merkle.ProofFor(h, CarryUp, leaves, index)
    {
      assert layers[0] == leaves;
      if index < 0 || index >= |layers[0]| {
        return Failure("leaf index out of range");
      }
      var proof: seq<Bytes32> := [];
      var idx: nat := index;
      ghost var current := leaves;
      for layer := 0 to |layers| - 1
        invariant layers[layer..] == Levels(h, CarryUp, current)
        invariant proof + Merkle.ProofFor(h, CarryUp, current, idx) == Merkle.ProofFor(h, CarryUp, leaves, index)
      {
        var nodes := layers[layer];
        assert nodes == layers[layer..][0] == current && |layers[layer..]| > 1;
        ghost var rest := Merkle.ProofFor(h, CarryUp, NextLevel(h, CarryUp, current), idx / 2);
        var pairIdx := Sibling(idx);
        if pairIdx < |nodes| {
          assert proof + ([nodes[pairIdx]] + rest) == (proof + [nodes[pairIdx]]) + rest;
          proof := proof + [nodes[pairIdx]];
        } else {
          assert [] + rest == rest;
        }
        idx := idx / 2;
        assert layers[layer..][1..] == layers[layer + 1..];
        current := NextLevel(h, CarryUp, current);
      }
      assert proof + [] == proof;
      r := Success(proof);
    }
  }

  /** The constructor: throws on no leaves, otherwise the layers are the program's levels. */
  method NewMerkleTree(h: Hash, leaves: seq<Bytes32>) returns (r: Result<MerkleTree, string>)
    ensures r.Success? <==> leaves != []
    ensures r.Success? ==> r.value.layers == Levels(h, CarryUp, leaves)
  {
    if leaves == [] {
      return Failure("MerkleTree requires at least one leaf");
    }
    var layers := [leaves];
    while |layers[|layers| - 1]| > 1
      invariant layers != [] && layers[|layers| - 1] != []
      invariant layers + Levels(h, CarryUp, layers[|layers| - 1])[1..] == Levels(h, CarryUp, leaves)
      decreases |layers[|layers| - 1]|
    {
      var current := layers[|layers| - 1];
      var next: seq<Bytes32> := [];
      var i := 0;
      while i < |current|
        invariant i == 2 * |next| <= |current| + 1
        invariant next == NextLevel(h, CarryUp, current)[..|next|]
      {
        assert NextLevel(h, CarryUp, current)[|next|] == Parent(h, CarryUp, current, |next|);
        if i + 1 < |current| {
          next := next + [HashPair(h, current[i], current[i + 1])];
        } else {
          next := next + [current[i]];
        }
        i := i + 2;
      }
      assert next == NextLevel(h, CarryUp, current);
      ghost var after := Levels(h, CarryUp, next);
      assert Levels(h, CarryUp, current)[1..] == after == [next] + after[1..];
      assert layers + after == (layers + [next]) + after[1..];
      layers := layers + [next];
    }
    assert Levels(h, CarryUp, layers[|layers| - 1])[1..] == [];
    r := Success(MerkleTree(layers));
  }

  /** The harness's root is the program's. */
  lemma {:induction false} HarnessRoot(h: Hash, leaves: seq<Bytes32>, tree: MerkleTree)
    requires leaves != [] && tree.layers == Levels(h, CarryUp, leaves)
    ensures tree.layers[|tree.layers| - 1] != [] && tree.RootNode() == Root(h, CarryUp, leaves)
  {
    MerkleShape.LevelSizes(h, CarryUp, leaves);
  }

  /** `verifyProof` */
  method VerifyProof(h: Hash, leaf: Bytes32, proof: seq<Bytes32>, root: Bytes32) returns (ok: bool)
    ensures ok <==> FoldProof(h, leaf, proof) == root
  {
    var acc := leaf;
    for i := 0 to |proof|
      invariant acc == FoldProof(h, leaf, proof[..i])
    {
      assert proof[..i + 1][..i] == proof[..i];
      acc := HashPair(h, acc, proof[i]);
    }
    assert proof[..|proof|] == proof;
    ok := acc == root;
  }
}
