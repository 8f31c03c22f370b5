/** programs/cols/src/utils.rs: the on-chain verifier and the Rust builder, loop by loop. */
module ProgramMerkle {
  import opened Bytes
  import opened Merkle
  import MerkleShape
  import opened Wrappers

  /** `dst[at..][..src.len()].copy_from_slice(src)` */
  method CopyFromSlice(dst: array<Byte>, at: nat, src: Octets)
    requires at + |src| <= dst.Length
    modifies dst
    ensures dst[at..at + |src|] == src
    ensures forall k :: (0 <= k < at || at + |src| <= k < dst.Length) ==> dst[k] == old(dst[k])
  {
    for i := 0 to |src|
      invariant forall k :: 0 <= k < i ==> dst[at + k] == src[k]
      invariant forall k :: (0 <= k < at || at + i <= k < dst.Length) ==> dst[k] == old(dst[k])
    {
      dst[at + i] := src[i];
    }
  }

  /** `compute_distribution_leaf`: fills a 48-octet buffer, then hashes it. */
  method ComputeDistributionLeaf(h: Hash, holder: Bytes32, epoch: U64, amount: U64) returns (r: Bytes32)
    ensures r == LeafHash(h, Leaf(holder, epoch, amount))
  {
    var e := U64LeBytes(epoch);
    var a := U64LeBytes(amount);
    var preimage := new Byte[48](_ => 0);
    CopyFromSlice(preimage, 0, holder);
    assert preimage[..32] == holder;
    CopyFromSlice(preimage, 32, e.value);
    assert preimage[..32] == holder && preimage[32..40] == e.value;
    CopyFromSlice(preimage, 40, a.value);
    assert preimage[..32] == holder && preimage[32..40] == e.value && preimage[40..] == a.value;
    assert preimage[..] == preimage[..32] + preimage[32..40] + preimage[40..];
    r := h(preimage[..]);
  }

  /** `hash_pair`: the two digests in ascending order in a 64-octet buffer. */
  method HashPairInBuffer(h: Hash, a: Bytes32, b: Bytes32) returns (r: Bytes32)
    ensures r == HashPair(h, a, b)
  {
    var buf := new Byte[64](_ => 0);
    if LexLeq(a, b) {
      CopyFromSlice(buf, 0, a);
      assert buf[..32] == a;
      CopyFromSlice(buf, 32, b);
      assert buf[..32] == a && buf[32..] == b;
    } else {
      CopyFromSlice(buf, 0, b);
      assert buf[..32] == b;
      CopyFromSlice(buf, 32, a);
      assert buf[..32] == b && buf[32..] == a;
    }
    assert buf[..] == buf[..32] + buf[32..];
    r := h(buf[..]);
  }

  /** `verify_merkle_proof`: accepts exactly when the folded proof reaches the root. */
  method VerifyMerkleProof(h: Hash, leaf: Bytes32, proof: seq<Bytes32>, root: Bytes32) returns (ok: bool)
    ensures ok <==> FoldProof(h, leaf, proof) == root
  {
    var current := leaf;
    for i := 0 to |proof|
      invariant current == FoldProof(h, leaf, proof[..i])
    {
      assert proof[..i + 1][..i] == proof[..i];
      current := HashPairInBuffer(h, current, proof[i]);
    }
    assert proof[..|proof|] == proof;
    ok := current == root;
  }

  /** The loop over `chunks(2)`: pairs are hashed, a single last node is carried up. */
  method PairUp(h: Hash, current: seq<Bytes32>) returns (next: seq<Bytes32>)
    ensures next == NextLevel(h, CarryUp, current)
  {
    next := [];
    var at := 0;
    while at < |current|
      invariant at == 2 * |next| || (at == 2 * |next| - 1 == |current|)
      invariant at <= |current| && |next| <= |NextLevel(h, CarryUp, current)|
      invariant next == NextLevel(h, CarryUp, current)[..|next|]
    {
      var chunk := current[at..if at + 2 <= |current| then at + 2 else |current|];
      assert NextLevel(h, CarryUp, current)[|next|] == Parent(h, CarryUp, current, |next|);
      if |chunk| == 2 {
        var p := HashPairInBuffer(h, chunk[0], chunk[1]);
        next := next + [p];
      } else {
        next := next + [chunk[0]];
      }
      at := at + |chunk|;
    }
  }

  /** `build_tree`: no levels for no leaves, otherwise every carry-up level, leaves first. */
  method BuildTree(h: Hash, leaves: seq<Bytes32>) returns (levels: seq<seq<Bytes32>>)
    ensures levels == if leaves == [] then [] else Levels(h, CarryUp, leaves)
  {
    if leaves == [] {
      return [];
    }
    var current := leaves;
    levels := [current];
    while |current| > 1
      invariant current != []
      invariant levels + Levels(h, CarryUp, current)[1..] == Levels(h, CarryUp, leaves)
      decreases |current|
    {
      var next := PairUp(h, current);
      ghost var after := Levels(h, CarryUp, next);
      assert Levels(h, CarryUp, current)[1..] == after == [next] + after[1..];
      assert levels + after == (levels + [next]) + after[1..];
      current := next;
      levels := levels + [current];
    }
    assert Levels(h, CarryUp, current)[1..] == [];
  }

  /** `root`: the first node of the last level. */
  method TreeRoot(h: Hash, leaves: seq<Bytes32>) returns (r: Option<Bytes32>)
    ensures r == if leaves == [] then None else Some(Root(h, CarryUp, leaves))
  {
    var levels := BuildTree(h, leaves);
    if levels == [] {
      return None;
    }
    MerkleShape.LevelSizes(h, CarryUp, leaves);
    r := Some(levels[|levels| - 1][0]);
  }

  /** `proof_for`: defined for every index, in range or not, and for the empty list. */
  method ProofForLeaf(h: Hash, leaves: seq<Bytes32>, index: nat) returns (proof: seq<Bytes32>)
    ensures proof == ProofFor(h, CarryUp, leaves, index)
  {
    var levels := BuildTree(h, leaves);
    proof := [];
    if levels == [] {
      return;
    }
    var idx := index;
    ghost var current := leaves;
    for k := 0 to |levels| - 1
      invariant levels[k..] == Levels(h, CarryUp, current)
      invariant proof + ProofFor(h, CarryUp, current, idx) == ProofFor(h, CarryUp, leaves, index)
    {
      assert levels[k] == levels[k..][0] == current && |levels[k..]| > 1;
      ghost var rest := ProofFor(h, CarryUp, NextLevel(h, CarryUp, current), idx / 2);
      var siblingIdx := if idx % 2 == 0 then idx + 1 else idx - 1;
      if siblingIdx < |levels[k]| {
        assert proof + ([levels[k][siblingIdx]] + rest) == (proof + [levels[k][siblingIdx]]) + rest;
        proof := proof + [levels[k][siblingIdx]];
      } else {
        assert [] + rest == rest;
      }
      idx := idx / 2;
      assert levels[k..][1..] == levels[k + 1..];
      current := NextLevel(h, CarryUp, current);
    }
    assert proof + [] == proof;
  }

  /** Building a proof and verifying it succeeds for every leaf of every list. */
  method ProveAndVerify(h: Hash, leaves: seq<Bytes32>, index: nat) returns (ok: bool)
    requires index < |leaves|
    ensures ok
  {
    var root := TreeRoot(h, leaves);
    var proof := ProofForLeaf(h, leaves, index);
    Completeness(h, leaves, index);
    ok := VerifyMerkleProof(h, leaves[index], proof, root.value);
  }
}
