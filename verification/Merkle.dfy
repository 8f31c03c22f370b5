/**
 The sorted-pair Merkle tree behind holder-fee distributions, for an arbitrary hash.

 The hash is a parameter and nothing is assumed about it. Soundness is therefore stated
 with an extractor: from an accepted proof, `Descend` computes either the position of the
 claimed leaf or two distinct preimages, both hashed by the builder or the verifier, that
 have the same digest.
*/
module Merkle {
  import opened Bytes

  type Hash = Octets -> Bytes32

  /** What one leaf of a distribution says: `holder` may draw `amount` in `epoch`. */
  datatype Leaf = Leaf(holder: Bytes32, epoch: U64, amount: U64)

  function LeafHash(h: Hash, l: Leaf): Bytes32 {
    h(LeafPreimage(l))
  }

  /** What a builder does with the last node of a level of odd length. */
  datatype OddRule = CarryUp | DuplicateLast

  // ---------------------------------------------------------------- preimages

  /** holder || epoch (u64 LE) || amount (u64 LE). */
  function LeafPreimage(l: Leaf): (r: Octets)
    ensures |r| == 48
  {
    l.holder + LeBytes(8, l.epoch) + LeBytes(8, l.amount)
  }

  /** Where each field stands, whatever the leaf: holder, then epoch, then amount. */
  lemma {:induction false} LeafPreimageLayout(l: Leaf)
    ensures var p := LeafPreimage(l);
            p[..32] == l.holder && LeValue(p[32..40]) == l.epoch && LeValue(p[40..48]) == l.amount
  {
    var e, a := LeBytes(8, l.epoch), LeBytes(8, l.amount);
    ThreeSlices(l.holder, e, a);
    U64Exact(l.epoch);
    U64Exact(l.amount);
    assert LeafPreimage(l)[40..48] == LeafPreimage(l)[40..];
  }

  lemma LeafPreimageInjective(a: Leaf, b: Leaf)
    requires LeafPreimage(a) == LeafPreimage(b)
    ensures a == b
  {
    SplitThree(a.holder, LeBytes(8, a.epoch), LeBytes(8, a.amount),
               b.holder, LeBytes(8, b.epoch), LeBytes(8, b.amount));
    U64BytesInjective(a.epoch, b.epoch);
    U64BytesInjective(a.amount, b.amount);
  }

  /** The two children in ascending byte order. */
  function NodePreimage(a: Bytes32, b: Bytes32): (r: Octets)
    ensures |r| == 64
  {
    if LexLeq(a, b) then a + b else b + a
  }

  /** The child with the smaller octet at the first difference comes first, whichever was given first. */
  lemma {:induction false} NodePreimageOrder(a: Bytes32, b: Bytes32, k: nat)
    requires SmallerAt(a, b, k)
    ensures NodePreimage(a, b)[..32] == NodePreimage(b, a)[..32] == a
    ensures NodePreimage(a, b)[32..] == NodePreimage(b, a)[32..] == b
  {
    LexOfDifference(a, b, k);
  }

  lemma NodePreimageCommutes(a: Bytes32, b: Bytes32)
    ensures NodePreimage(a, b) == NodePreimage(b, a)
  {
    LexTotal(a, b);
  }

  lemma NodePreimageInjective(a: Bytes32, b: Bytes32, c: Bytes32, d: Bytes32)
    requires NodePreimage(a, b) == NodePreimage(c, d)
    ensures (a == c && b == d) || (a == d && b == c)
  {
    var p, q := NodePreimage(a, b), NodePreimage(c, d);
    assert (p[..32] == a && p[32..] == b) || (p[..32] == b && p[32..] == a);
    assert (q[..32] == c && q[32..] == d) || (q[..32] == d && q[32..] == c);
  }

  function HashPair(h: Hash, a: Bytes32, b: Bytes32): Bytes32 {
    h(NodePreimage(a, b))
  }

  lemma HashPairCommutes(h: Hash, a: Bytes32, b: Bytes32)
    ensures HashPair(h, a, b) == HashPair(h, b, a)
  {
    NodePreimageCommutes(a, b);
  }

  // ---------------------------------------------------------------- verifier

  /** Absorbs the siblings of `proof` into a running digest, first to last. */
  function FoldProof(h: Hash, d: Bytes32, proof: seq<Bytes32>): Bytes32 {
    if proof == [] then d
    else HashPair(h, FoldProof(h, d, proof[..|proof| - 1]), proof[|proof| - 1])
  }

  lemma {:induction false} FoldFirst(h: Hash, d: Bytes32, x: Bytes32, rest: seq<Bytes32>)
    ensures FoldProof(h, d, [x] + rest) == FoldProof(h, HashPair(h, d, x), rest)
  {
    var p := [x] + rest;
    var n := |p| - 1;
    if rest == [] {
      assert p[..n] == [];
    } else {
      assert p[..n] == [x] + rest[..|rest| - 1];
      FoldFirst(h, d, x, rest[..|rest| - 1]);
    }
  }

  // ---------------------------------------------------------------- builder

  function Sibling(i: nat): nat {
    if i % 2 == 0 then i + 1 else i - 1
  }

  /** The parent of nodes `2k` and, if present, `2k + 1`. */
  function Parent(h: Hash, rule: OddRule, level: seq<Bytes32>, k: nat): Bytes32
    requires 2 * k < |level|
  {
    if 2 * k + 1 < |level| then HashPair(h, level[2 * k], level[2 * k + 1])
    else if rule.CarryUp? then level[2 * k]
    else HashPair(h, level[2 * k], level[2 * k])
  }

  function NextLevel(h: Hash, rule: OddRule, level: seq<Bytes32>): (r: seq<Bytes32>)
    ensures |r| == (|level| + 1) / 2
  {
    seq((|level| + 1) / 2, k requires 0 <= k < (|level| + 1) / 2 => Parent(h, rule, level, k))
  }

  /** All levels, leaves first. */
  function Levels(h: Hash, rule: OddRule, level: seq<Bytes32>): (r: seq<seq<Bytes32>>)
    ensures r != []
    decreases |level|
  {
    if |level| <= 1 then [level] else [level] + Levels(h, rule, NextLevel(h, rule, level))
  }

  function Root(h: Hash, rule: OddRule, level: seq<Bytes32>): Bytes32
    requires level != []
    decreases |level|
  {
    if |level| == 1 then level[0] else Root(h, rule, NextLevel(h, rule, level))
  }

  /** The sibling of node `i` at each level below the root, where there is one. */
  function ProofFor(h: Hash, rule: OddRule, level: seq<Bytes32>, i: nat): seq<Bytes32>
    decreases |level|
  {
    if |level| <= 1 then []
    else
      (if Sibling(i) < |level| then [level[Sibling(i)]] else [])
      + ProofFor(h, rule, NextLevel(h, rule, level), i / 2)
  }

  // ---------------------------------------------------------------- the tree itself

  /** The reference definition: a binary tree over leaf preimages. */
  datatype Tree = Tip(preimage: Octets) | Node(left: Tree, right: Tree)

  function TreeHash(h: Hash, t: Tree): Bytes32 {
    match t
    case Tip(p) => h(p)
    case Node(l, r) => HashPair(h, TreeHash(h, l), TreeHash(h, r))
  }

  function TreeHashes(h: Hash, ts: seq<Tree>): (r: seq<Bytes32>)
    ensures |r| == |ts|
  {
    seq(|ts|, i requires 0 <= i < |ts| => TreeHash(h, ts[i]))
  }

  function TreeParent(rule: OddRule, ts: seq<Tree>, k: nat): Tree
    requires 2 * k < |ts|
  {
    if 2 * k + 1 < |ts| then Node(ts[2 * k], ts[2 * k + 1])
    else if rule.CarryUp? then ts[2 * k]
    else Node(ts[2 * k], ts[2 * k])
  }

  function NextTrees(rule: OddRule, ts: seq<Tree>): (r: seq<Tree>)
    ensures |r| == (|ts| + 1) / 2
  {
    seq((|ts| + 1) / 2, k requires 0 <= k < (|ts| + 1) / 2 => TreeParent(rule, ts, k))
  }

  function BuildTree(rule: OddRule, ts: seq<Tree>): Tree
    requires ts != []
    decreases |ts|
  {
    if |ts| == 1 then ts[0] else BuildTree(rule, NextTrees(rule, ts))
  }

  /** `pre` is the preimage of a tip exactly `depth` steps below the root of `t`. */
  ghost predicate LeafAt(t: Tree, depth: nat, pre: Octets) {
    match t
    case Tip(p) => depth == 0 && p == pre
    case Node(l, r) => depth > 0 && (LeafAt(l, depth - 1, pre) || LeafAt(r, depth - 1, pre))
  }

  /** No tip is as long as a node preimage. */
  ghost predicate TipsApart(t: Tree) {
    match t
    case Tip(p) => |p| != 64
    case Node(l, r) => TipsApart(l) && TipsApart(r)
  }

  /** Everything the builder hashes. */
  function TreePreimages(h: Hash, t: Tree): set<Octets> {
    match t
    case Tip(p) => {p}
    case Node(l, r) =>
      {NodePreimage(TreeHash(h, l), TreeHash(h, r))} + TreePreimages(h, l) + TreePreimages(h, r)
  }

  /** Everything the verifier hashes. */
  function PathPreimages(h: Hash, pre: Octets, proof: seq<Bytes32>): set<Octets> {
    if proof == [] then {pre}
    else
      var n := |proof| - 1;
      {NodePreimage(FoldProof(h, h(pre), proof[..n]), proof[n])} + PathPreimages(h, pre, proof[..n])
  }

  // ---------------------------------------------------------------- soundness

  /** The outcome of checking an accepted proof against the tree it was checked for. */
  datatype Verdict = Member | Clash(x: Octets, y: Octets)

  predicate IsCollision(h: Hash, x: Octets, y: Octets) {
    x != y && h(x) == h(y)
  }

  /** Walks an accepted proof down from the root until it meets a tip or a hash collision. */
  function Descend(h: Hash, t: Tree, pre: Octets, proof: seq<Bytes32>): Verdict
    decreases |proof|
  {
    if proof == [] then
      match t
      case Tip(p) => if p == pre then Member else Clash(p, pre)
      case Node(l, r) => Clash(NodePreimage(TreeHash(h, l), TreeHash(h, r)), pre)
    else
      var n := |proof| - 1;
      var below := FoldProof(h, h(pre), proof[..n]);
      var claimed := NodePreimage(below, proof[n]);
      match t
      case Tip(p) => Clash(p, claimed)
      case Node(l, r) =>
        var built := NodePreimage(TreeHash(h, l), TreeHash(h, r));
        if built != claimed then Clash(built, claimed)
        else if below == TreeHash(h, l) then Descend(h, l, pre, proof[..n])
        else Descend(h, r, pre, proof[..n])
  }

  /**
   An accepted proof of any length either leads to a tip with the claimed preimage, at a
   depth equal to the length of the proof, or exhibits a collision between something the
   builder hashed and something the verifier hashed.
  */
  lemma {:induction false} Soundness(h: Hash, t: Tree, pre: Octets, proof: seq<Bytes32>)
    requires |pre| != 64 && TipsApart(t)
    requires FoldProof(h, h(pre), proof) == TreeHash(h, t)
    ensures match Descend(h, t, pre, proof)
            case Member => LeafAt(t, |proof|, pre)
            case Clash(x, y) =>
              IsCollision(h, x, y) && x in TreePreimages(h, t) && y in PathPreimages(h, pre, proof)
    decreases |proof|
  {
    if proof != [] && t.Node? {
      var n := |proof| - 1;
      var below := FoldProof(h, h(pre), proof[..n]);
      var l, r := TreeHash(h, t.left), TreeHash(h, t.right);
      if NodePreimage(l, r) == NodePreimage(below, proof[n]) {
        NodePreimageInjective(l, r, below, proof[n]);
        Soundness(h, if below == l then t.left else t.right, pre, proof[..n]);
      }
    }
  }

  // ---------------------------------------------------------------- levels and trees agree

  lemma NextTreesHash(h: Hash, rule: OddRule, ts: seq<Tree>)
    ensures TreeHashes(h, NextTrees(rule, ts)) == NextLevel(h, rule, TreeHashes(h, ts))
  {
    var a, b := TreeHashes(h, NextTrees(rule, ts)), NextLevel(h, rule, TreeHashes(h, ts));
    forall k | 0 <= k < |a| ensures a[k] == b[k] {
      assert a[k] == TreeHash(h, TreeParent(rule, ts, k));
    }
  }

  /** The root that the level-by-level builder computes is the hash of the reference tree. */
  lemma {:induction false} RootIsTreeHash(h: Hash, rule: OddRule, ts: seq<Tree>)
    requires ts != []
    ensures Root(h, rule, TreeHashes(h, ts)) == TreeHash(h, BuildTree(rule, ts))
    decreases |ts|
  {
    if |ts| > 1 {
      NextTreesHash(h, rule, ts);
      RootIsTreeHash(h, rule, NextTrees(rule, ts));
    }
  }

  lemma {:induction false} BuildTipsApart(rule: OddRule, ts: seq<Tree>)
    requires ts != [] && forall i :: 0 <= i < |ts| ==> TipsApart(ts[i])
    ensures TipsApart(BuildTree(rule, ts))
    decreases |ts|
  {
    if |ts| > 1 {
      var next := NextTrees(rule, ts);
      forall k | 0 <= k < |next| ensures TipsApart(next[k]) {
        assert next[k] == TreeParent(rule, ts, k);
      }
      BuildTipsApart(rule, next);
    }
  }

  /** The number of levels above the leaves. */
  function Height(n: nat): nat {
    if n <= 1 then 0 else 1 + Height((n + 1) / 2)
  }

  /**
   Every tip of the built tree is a tip of one of the given trees; when the last node is
   duplicated, every given tree hangs at the same depth.
  */
  lemma {:induction false} Locate(rule: OddRule, ts: seq<Tree>, depth: nat, pre: Octets)
    returns (i: nat, below: nat)
    requires ts != [] && LeafAt(BuildTree(rule, ts), depth, pre)
    ensures i < |ts| && LeafAt(ts[i], below, pre) && below <= depth
    ensures rule.DuplicateLast? ==> depth == below + Height(|ts|)
    decreases |ts|
  {
    if |ts| == 1 {
      i, below := 0, depth;
    } else {
      var next := NextTrees(rule, ts);
      var k, b := Locate(rule, next, depth, pre);
      assert next[k] == TreeParent(rule, ts, k);
      if 2 * k + 1 < |ts| {
        below := b - 1;
        i := if LeafAt(ts[2 * k], below, pre) then 2 * k else 2 * k + 1;
      } else if rule.CarryUp? {
        i, below := 2 * k, b;
      } else {
        i, below := 2 * k, b - 1;
      }
    }
  }

  // ---------------------------------------------------------------- distributions

  function TipsOf(leaves: seq<Leaf>): (r: seq<Tree>)
    ensures |r| == |leaves|
  {
    seq(|leaves|, i requires 0 <= i < |leaves| => Tip(LeafPreimage(leaves[i])))
  }

  function LeafHashes(h: Hash, leaves: seq<Leaf>): (r: seq<Bytes32>)
    ensures |r| == |leaves|
  {
    seq(|leaves|, i requires 0 <= i < |leaves| => LeafHash(h, leaves[i]))
  }

  function DistributionTree(rule: OddRule, leaves: seq<Leaf>): Tree
    requires leaves != []
  {
    BuildTree(rule, TipsOf(leaves))
  }

  function DistributionRoot(h: Hash, rule: OddRule, leaves: seq<Leaf>): Bytes32
    requires leaves != []
  {
    Root(h, rule, LeafHashes(h, leaves))
  }

  lemma DistributionRootIsTreeHash(h: Hash, rule: OddRule, leaves: seq<Leaf>)
    requires leaves != []
    ensures DistributionRoot(h, rule, leaves) == TreeHash(h, DistributionTree(rule, leaves))
    ensures TipsApart(DistributionTree(rule, leaves))
  {
    assert TreeHashes(h, TipsOf(leaves)) == LeafHashes(h, leaves);
    RootIsTreeHash(h, rule, TipsOf(leaves));
    BuildTipsApart(rule, TipsOf(leaves));
  }

  /**
   Soundness by reduction: a leaf that verifies against the root of a leaf list is in the
   list, or the proof yields two distinct preimages with the same digest. The proof may
   have any length. Under the duplicating rule its length is also pinned down.
  */
  lemma {:induction false} DistributionSoundness(h: Hash, rule: OddRule, leaves: seq<Leaf>, leaf: Leaf,
                                                   proof: seq<Bytes32>)
    requires leaves != []
    requires FoldProof(h, LeafHash(h, leaf), proof) == DistributionRoot(h, rule, leaves)
    ensures match Descend(h, DistributionTree(rule, leaves), LeafPreimage(leaf), proof)
            case Member => leaf in leaves && (rule.DuplicateLast? ==> |proof| == Height(|leaves|))
            case Clash(x, y) => IsCollision(h, x, y)
  {
    var t, pre := DistributionTree(rule, leaves), LeafPreimage(leaf);
    DistributionRootIsTreeHash(h, rule, leaves);
    Soundness(h, t, pre, proof);
    if Descend(h, t, pre, proof).Member? {
      var i, below := Locate(rule, TipsOf(leaves), |proof|, pre);
      LeafPreimageInjective(leaves[i], leaf);
    }
  }

  // ---------------------------------------------------------------- completeness

  /** Folding a carry-up proof from any node gives the root, whatever levels are odd. */
  lemma {:induction false} Completeness(h: Hash, level: seq<Bytes32>, i: nat)
    requires i < |level|
    ensures FoldProof(h, level[i], ProofFor(h, CarryUp, level, i)) == Root(h, CarryUp, level)
    decreases |level|
  {
    if |level| > 1 {
      var next := NextLevel(h, CarryUp, level);
      Completeness(h, next, i / 2);
      ParentOf(h, CarryUp, level, i);
      var rest := ProofFor(h, CarryUp, next, i / 2);
      if Sibling(i) < |level| {
        FoldFirst(h, level[i], level[Sibling(i)], rest);
      } else {
        assert [] + rest == rest;
      }
    }
  }

  /** The parent of a node that has a sibling hashes the two, in either order. */
  lemma ParentOf(h: Hash, rule: OddRule, level: seq<Bytes32>, i: nat)
    requires i < |level|
    ensures i / 2 < |NextLevel(h, rule, level)|
    ensures NextLevel(h, rule, level)[i / 2] ==
            if Sibling(i) < |level| then HashPair(h, level[i], level[Sibling(i)])
            else if rule.CarryUp? then level[i]
            else HashPair(h, level[i], level[i])
  {
    var k := i / 2;
    assert NextLevel(h, rule, level)[k] == Parent(h, rule, level, k);
    if i == 2 * k + 1 {
      HashPairCommutes(h, level[i], level[i - 1]);
    }
  }
}
