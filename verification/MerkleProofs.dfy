/**
 Which proofs the verifier accepts: short of a hash collision, only the ones a builder makes.
*/
module MerkleProofs {
  import opened Bytes
  import opened Merkle
  import MerkleShape

  /** `proof` lists the hashes beside some path from the root of `t` down to a tip with preimage `pre`. */
  ghost predicate PathProof(h: Hash, t: Tree, pre: Octets, proof: seq<Bytes32>)
    decreases t
  {
    match t
    case Tip(p) => proof == [] && p == pre
    case Node(l, r) =>
      && proof != []
      && var n := |proof| - 1;
      || (proof[n] == TreeHash(h, r) && PathProof(h, l, pre, proof[..n]))
      || (proof[n] == TreeHash(h, l) && PathProof(h, r, pre, proof[..n]))
  }

  /** When the extractor finds no collision, an accepted proof is that of a path. */
  lemma {:induction false} MemberFollowsPath(h: Hash, t: Tree, pre: Octets, proof: seq<Bytes32>)
    requires FoldProof(h, h(pre), proof) == TreeHash(h, t) && Descend(h, t, pre, proof).Member?
    ensures PathProof(h, t, pre, proof)
    decreases |proof|
  {
    if proof != [] && t.Node? {
      var n := |proof| - 1;
      var below := FoldProof(h, h(pre), proof[..n]);
      var l, r := TreeHash(h, t.left), TreeHash(h, t.right);
      NodePreimageInjective(l, r, below, proof[n]);
      MemberFollowsPath(h, if below == l then t.left else t.right, pre, proof[..n]);
    }
  }

  /** The top entry of a proof below a parent is the hash of the sibling. */
  lemma ParentPath(h: Hash, rule: OddRule, ts: seq<Tree>, k: nat, pre: Octets, proof: seq<Bytes32>)
    returns (i: nat, n: nat)
    requires 2 * k < |ts| && PathProof(h, TreeParent(rule, ts, k), pre, proof)
    ensures i < |ts| && i / 2 == k && n <= |proof| && PathProof(h, ts[i], pre, proof[..n])
    ensures proof[n..] ==
            if Sibling(i) < |ts| then [TreeHash(h, ts[Sibling(i)])]
            else if rule.CarryUp? then []
            else [TreeHash(h, ts[i])]
  {
    if 2 * k + 1 < |ts| {
      n := |proof| - 1;
      var left := proof[n] == TreeHash(h, ts[2 * k + 1]) && PathProof(h, ts[2 * k], pre, proof[..n]);
      i := if left then 2 * k else 2 * k + 1;
    } else if rule.CarryUp? {
      i, n := 2 * k, |proof|;
      assert proof[..n] == proof;
    } else {
      i, n := 2 * k, |proof| - 1;
    }
  }

  lemma Splice(proof: seq<Bytes32>, m: nat, n: nat)
    requires n <= m <= |proof|
    ensures proof[..m][..n] == proof[..n]
    ensures proof[n..] == proof[..m][n..] + proof[m..]
  {
  }

  /** Above the given trees, the proof of a path is the builder's full proof. */
  lemma {:induction false} LocateProof(h: Hash, rule: OddRule, ts: seq<Tree>, pre: Octets, proof: seq<Bytes32>)
    returns (i: nat, n: nat)
    requires ts != [] && PathProof(h, BuildTree(rule, ts), pre, proof)
    ensures i < |ts| && n <= |proof| && PathProof(h, ts[i], pre, proof[..n])
    ensures proof[n..] == MerkleShape.FullProof(h, rule, TreeHashes(h, ts), i)
    decreases |ts|
  {
    if |ts| == 1 {
      i, n := 0, |proof|;
      assert proof[..n] == proof;
    } else {
      var next := NextTrees(rule, ts);
      var k, m := LocateProof(h, rule, next, pre, proof);
      assert next[k] == TreeParent(rule, ts, k);
      i, n := ParentPath(h, rule, ts, k, pre, proof[..m]);
      NextTreesHash(h, rule, ts);
      Splice(proof, m, n);
      FullProofStep(h, rule, TreeHashes(h, ts), i);
    }
  }

  /** A full proof is the sibling's hash, the node's own if it is duplicated, and the parent's proof. */
  lemma FullProofStep(h: Hash, rule: OddRule, level: seq<Bytes32>, i: nat)
    requires i < |level| && |level| > 1
    ensures i / 2 < |NextLevel(h, rule, level)|
    ensures MerkleShape.FullProof(h, rule, level, i) ==
            (if Sibling(i) < |level| then [level[Sibling(i)]] else if rule.CarryUp? then [] else [level[i]])
            + MerkleShape.FullProof(h, rule, NextLevel(h, rule, level), i / 2)
  {
  }

  /**
   Proofs are unique: a proof that verifies a leaf against the root of a list is the full proof
   of a position at which the list has that leaf, or two distinct preimages with the same
   digest are computed.
  */
  lemma {:induction false} AcceptedIsFullProof(h: Hash, rule: OddRule, leaves: seq<Leaf>, leaf: Leaf,
                                               proof: seq<Bytes32>)
    returns (i: nat)
    requires leaves != []
    requires FoldProof(h, LeafHash(h, leaf), proof) == DistributionRoot(h, rule, leaves)
    ensures match Descend(h, DistributionTree(rule, leaves), LeafPreimage(leaf), proof)
            case Member =>
              && i < |leaves| && leaves[i] == leaf
              && proof == MerkleShape.FullProof(h, rule, LeafHashes(h, leaves), i)
            case Clash(x, y) => IsCollision(h, x, y)
  {
    var t, pre := DistributionTree(rule, leaves), LeafPreimage(leaf);
    i := 0;
    DistributionRootIsTreeHash(h, rule, leaves);
    if Descend(h, t, pre, proof).Member? {
      var n: nat;
      MemberFollowsPath(h, t, pre, proof);
      i, n := LocateProof(h, rule, TipsOf(leaves), pre, proof);
      assert proof[n..] == proof;
      assert TreeHashes(h, TipsOf(leaves)) == LeafHashes(h, leaves);
      LeafPreimageInjective(leaves[i], leaf);
    } else {
      DistributionSoundness(h, rule, leaves, leaf, proof);
    }
  }

  ghost predicate Accepted(h: Hash, rule: OddRule, leaves: seq<Leaf>, leaf: Leaf, proof: seq<Bytes32>)
    requires leaves != []
  {
    FoldProof(h, LeafHash(h, leaf), proof) == DistributionRoot(h, rule, leaves)
  }

  /**
   For a list of distinct leaves, exactly one proof verifies leaf `i`, short of an explicit
   collision: the builder's full proof. No shorter, longer or other one does.
  */
  lemma {:induction false} ProofIsUnique(h: Hash, rule: OddRule, leaves: seq<Leaf>, i: nat, proof: seq<Bytes32>)
    requires i < |leaves| && forall j, k :: 0 <= j < k < |leaves| ==> leaves[j] != leaves[k]
    ensures proof == MerkleShape.FullProof(h, rule, LeafHashes(h, leaves), i)
            ==> Accepted(h, rule, leaves, leaves[i], proof)
    ensures Accepted(h, rule, leaves, leaves[i], proof)
            && !MerkleShape.YieldsCollision(
                  h, Descend(h, DistributionTree(rule, leaves), LeafPreimage(leaves[i]), proof))
            ==> proof == MerkleShape.FullProof(h, rule, LeafHashes(h, leaves), i)
  {
    MerkleShape.FullCompleteness(h, rule, LeafHashes(h, leaves), i);
    if Accepted(h, rule, leaves, leaves[i], proof) {
      var j := AcceptedIsFullProof(h, rule, leaves, leaves[i], proof);
    }
  }
}
