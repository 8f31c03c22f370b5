/**
 The shape of the trees: level sizes, proof lengths, and exactly when the two odd-level
 rules agree and when the duplicating rule's proofs verify.
*/
module MerkleShape {
  import opened Bytes
  import opened Merkle

  function Pow2(k: nat): (r: nat)
    ensures r > 0
  {
    if k == 0 then 1 else 2 * Pow2(k - 1)
  }

  function CeilDiv(n: nat, d: nat): nat
    requires d > 0
  {
    (n + d - 1) / d
  }

  function FloorDiv(n: nat, d: nat): nat
    requires d > 0
  {
    n / d
  }

  lemma HalvedCeil(n: nat, p: nat)
    requires p > 0
    ensures CeilDiv((n + 1) / 2, p) == CeilDiv(n, 2 * p)
  {
    var q, r := (n + 2 * p - 1) / (2 * p), (n + 2 * p - 1) % (2 * p);
    assert n + 2 * p - 1 == q * (2 * p) + r;
    assert q * (2 * p) == 2 * (q * p);
    assert (n + 1) / 2 + p - 1 == q * p + r / 2;
    DivModUnique((n + 1) / 2 + p - 1, p, q, r / 2);
  }

  /** `Height(n)` is the base-two logarithm of `n`, rounded up. */
  lemma {:induction false} HeightIsCeilLog2(n: nat)
    requires n > 0
    ensures n <= Pow2(Height(n))
    ensures Height(n) > 0 ==> Pow2(Height(n) - 1) < n
  {
    if n > 1 {
      HeightIsCeilLog2((n + 1) / 2);
      if n > 2 {
        assert Height((n + 1) / 2) > 0;
      }
    }
  }

  lemma {:induction false} LevelCount(h: Hash, rule: OddRule, level: seq<Bytes32>)
    requires level != []
    ensures |Levels(h, rule, level)| == Height(|level|) + 1
    ensures Levels(h, rule, level)[Height(|level|)] == [Root(h, rule, level)]
    decreases |level|
  {
    if |level| > 1 {
      LevelCount(h, rule, NextLevel(h, rule, level));
    }
  }

  lemma {:induction false} LevelSize(h: Hash, rule: OddRule, level: seq<Bytes32>, k: nat)
    requires level != [] && k < |Levels(h, rule, level)|
    ensures |Levels(h, rule, level)[k]| == CeilDiv(|level|, Pow2(k))
    decreases k
  {
    if k > 0 {
      LevelSize(h, rule, NextLevel(h, rule, level), k - 1);
      HalvedCeil(|level|, Pow2(k - 1));
    }
  }

  /** Level `k` holds ceil(n / 2^k) nodes, there are ceil(log2 n) + 1 levels, the last is the root. */
  lemma {:induction false} LevelSizes(h: Hash, rule: OddRule, level: seq<Bytes32>)
    requires level != []
    ensures var all := Levels(h, rule, level);
            && |all| == Height(|level|) + 1
            && (forall k :: 0 <= k < |all| ==> |all[k]| == CeilDiv(|level|, Pow2(k)))
            && all[|all| - 1] == [Root(h, rule, level)]
  {
    LevelCount(h, rule, level);
    forall k | 0 <= k < |Levels(h, rule, level)|
      ensures |Levels(h, rule, level)[k]| == CeilDiv(|level|, Pow2(k))
    {
      LevelSize(h, rule, level, k);
    }
  }

  // ---------------------------------------------------------------- which nodes are paired

  /** Node `i` of a level of `n` nodes and all its ancestors below the root have a sibling. */
  predicate AllPaired(n: nat, i: nat)
    decreases n
  {
    n <= 1 || (Sibling(i) < n && AllPaired((n + 1) / 2, i / 2))
  }

  /** The ancestor at level `k`, node i / 2^k of ceil(n / 2^k), has a sibling. */
  predicate PairedAt(n: nat, i: nat, k: nat) {
    Sibling(FloorDiv(i, Pow2(k))) < CeilDiv(n, Pow2(k))
  }

  lemma PairedAtParent(n: nat, i: nat, k: nat)
    ensures PairedAt(n, i, k + 1) == PairedAt((n + 1) / 2, i / 2, k)
    ensures PairedAt(n, i, 0) == (Sibling(i) < n)
  {
    HalvedCeil(n, Pow2(k));
    HalvedIndex(i, Pow2(k));
  }

  /** `AllPaired`, ancestor by ancestor. */
  lemma {:induction false} AllPairedByLevel(n: nat, i: nat)
    requires n > 0
    ensures AllPaired(n, i) <==> forall k: nat :: k < Height(n) ==> PairedAt(n, i, k)
    decreases n
  {
    if n > 1 {
      var m, j := (n + 1) / 2, i / 2;
      AllPairedByLevel(m, j);
      PairedAtParent(n, i, 0);
      if AllPaired(n, i) {
        forall k: nat | k < Height(n) ensures PairedAt(n, i, k) {
          if k > 0 {
            PairedAtParent(n, i, k - 1);
          }
        }
      } else if Sibling(i) < n {
        var k: nat :| k < Height(m) && !PairedAt(m, j, k);
        PairedAtParent(n, i, k);
        assert k + 1 < Height(n);
      } else {
        assert 0 < Height(n);
      }
    }
  }

  lemma HalvedIndex(i: nat, p: nat)
    requires p > 0
    ensures FloorDiv(i, 2 * p) == FloorDiv(i / 2, p)
  {
    var q, r := i / (2 * p), i % (2 * p);
    assert q * (2 * p) == 2 * (q * p);
    assert i / 2 == q * p + r / 2;
    DivModUnique(i / 2, p, q, r / 2);
  }

  /** A proof has at most ceil(log2 n) entries, and exactly that many when all are paired. */
  lemma {:induction false} ProofLength(h: Hash, rule: OddRule, level: seq<Bytes32>, i: nat)
    ensures |ProofFor(h, rule, level, i)| <= Height(|level|)
    ensures |ProofFor(h, rule, level, i)| == Height(|level|) <==> AllPaired(|level|, i)
    decreases |level|
  {
    if |level| > 1 {
      ProofLength(h, rule, NextLevel(h, rule, level), i / 2);
    }
  }

  /** The last of `n` leaves is fully paired exactly when `n` is a power of two. */
  lemma {:induction false} LastPairedIffPowerOfTwo(n: nat)
    requires n > 0
    ensures AllPaired(n, n - 1) <==> n == Pow2(Height(n))
  {
    if n > 1 {
      if n % 2 == 0 {
        LastPairedIffPowerOfTwo(n / 2);
        assert (n - 1) / 2 == n / 2 - 1 && (n + 1) / 2 == n / 2;
      } else {
        assert Sibling(n - 1) == n;
        assert Pow2(Height(n)) == 2 * Pow2(Height(n) - 1);
      }
    }
  }

  lemma {:induction false} PowerOfTwoAllPaired(n: nat, i: nat)
    requires i < n && n == Pow2(Height(n))
    ensures AllPaired(n, i)
    decreases n
  {
    if n > 1 {
      assert n == 2 * Pow2(Height(n) - 1);
      PowerOfTwoAllPaired(n / 2, i / 2);
      assert (n + 1) / 2 == n / 2;
    }
  }

  // ---------------------------------------------------------------- duplicated nodes

  /** With a duplicated last node, a proof verifies whenever all ancestors are paired. */
  lemma {:induction false} DuplicateCompleteness(h: Hash, level: seq<Bytes32>, i: nat)
    requires i < |level| && AllPaired(|level|, i)
    ensures FoldProof(h, level[i], ProofFor(h, DuplicateLast, level, i)) == Root(h, DuplicateLast, level)
    decreases |level|
  {
    if |level| > 1 {
      var next := NextLevel(h, DuplicateLast, level);
      DuplicateCompleteness(h, next, i / 2);
      ParentOf(h, DuplicateLast, level, i);
      FoldFirst(h, level[i], level[Sibling(i)], ProofFor(h, DuplicateLast, next, i / 2));
    }
  }

  /** The proof that matches the duplicating rule: an unpaired node is its own sibling. */
  function PaddedProofFor(h: Hash, level: seq<Bytes32>, i: nat): seq<Bytes32>
    requires i < |level|
    decreases |level|
  {
    if |level| <= 1 then []
    else
      [level[if Sibling(i) < |level| then Sibling(i) else i]]
      + PaddedProofFor(h, NextLevel(h, DuplicateLast, level), i / 2)
  }

  /** With the padded proof, every leaf of every list verifies. */
  lemma {:induction false} PaddedCompleteness(h: Hash, level: seq<Bytes32>, i: nat)
    requires i < |level|
    ensures FoldProof(h, level[i], PaddedProofFor(h, level, i)) == Root(h, DuplicateLast, level)
    decreases |level|
  {
    if |level| > 1 {
      var next := NextLevel(h, DuplicateLast, level);
      PaddedCompleteness(h, next, i / 2);
      ParentOf(h, DuplicateLast, level, i);
      FoldFirst(h, level[i], level[if Sibling(i) < |level| then Sibling(i) else i],
                PaddedProofFor(h, next, i / 2));
    }
  }

  /** The program builder's own proof, or the SDK's with the unpaired nodes filled in. */
  function FullProof(h: Hash, rule: OddRule, level: seq<Bytes32>, i: nat): seq<Bytes32>
    requires i < |level|
  {
    if rule.CarryUp? then ProofFor(h, CarryUp, level, i) else PaddedProofFor(h, level, i)
  }

  lemma FullCompleteness(h: Hash, rule: OddRule, level: seq<Bytes32>, i: nat)
    requires i < |level|
    ensures FoldProof(h, level[i], FullProof(h, rule, level, i)) == Root(h, rule, level)
  {
    if rule.CarryUp? {
      Completeness(h, level, i);
    } else {
      PaddedCompleteness(h, level, i);
    }
  }

  ghost predicate YieldsCollision(h: Hash, v: Verdict) {
    v.Clash? && IsCollision(h, v.x, v.y)
  }

  ghost predicate SdkVerifies(h: Hash, leaves: seq<Leaf>, i: nat)
    requires i < |leaves|
  {
    FoldProof(h, LeafHash(h, leaves[i]), ProofFor(h, DuplicateLast, LeafHashes(h, leaves), i))
    == DistributionRoot(h, DuplicateLast, leaves)
  }

  /** What the extractor says about the proof that the SDK hands out for leaf `i`. */
  function SdkVerdict(h: Hash, leaves: seq<Leaf>, i: nat): Verdict
    requires i < |leaves|
  {
    Descend(h, DistributionTree(DuplicateLast, leaves), LeafPreimage(leaves[i]),
            ProofFor(h, DuplicateLast, LeafHashes(h, leaves), i))
  }

  /**
   The exact condition for the SDK builder: leaf `i` verifies if, and short of an explicit
   hash collision only if, neither it nor an ancestor below the root lacks a sibling.
  */
  lemma SdkProofExact(h: Hash, leaves: seq<Leaf>, i: nat)
    requires i < |leaves|
    ensures AllPaired(|leaves|, i) ==> SdkVerifies(h, leaves, i)
    ensures SdkVerifies(h, leaves, i) && !YieldsCollision(h, SdkVerdict(h, leaves, i)) ==> AllPaired(|leaves|, i)
  {
    var level := LeafHashes(h, leaves);
    if AllPaired(|leaves|, i) {
      DuplicateCompleteness(h, level, i);
    }
    if SdkVerifies(h, leaves, i) {
      ProofLength(h, DuplicateLast, level, i);
      DistributionSoundness(h, DuplicateLast, leaves, leaves[i], ProofFor(h, DuplicateLast, level, i));
    }
  }

  /** Five leaves, the case the SDK's own test expects to pass: leaf 4 does not verify. */
  lemma SdkFiveLeavesFails(h: Hash, leaves: seq<Leaf>)
    requires |leaves| == 5 && !YieldsCollision(h, SdkVerdict(h, leaves, 4))
    ensures !SdkVerifies(h, leaves, 4)
  {
    SdkProofExact(h, leaves, 4);
    assert Sibling(4) == 5;
    assert !AllPaired(5, 4);
  }

  /** All SDK proofs verify for a list whose size is a power of two ... */
  lemma {:induction false} SdkAllVerify(h: Hash, leaves: seq<Leaf>, i: nat)
    requires i < |leaves| == Pow2(Height(|leaves|))
    ensures SdkVerifies(h, leaves, i)
  {
    PowerOfTwoAllPaired(|leaves|, i);
    SdkProofExact(h, leaves, i);
  }

  /** ... and only then: otherwise the last leaf's proof fails, short of an explicit collision. */
  lemma {:induction false} SdkAllVerifyOnly(h: Hash, leaves: seq<Leaf>)
    requires leaves != [] && |leaves| != Pow2(Height(|leaves|))
    requires !YieldsCollision(h, SdkVerdict(h, leaves, |leaves| - 1))
    ensures !SdkVerifies(h, leaves, |leaves| - 1)
  {
    var n := |leaves| - 1;
    LastPairedIffPowerOfTwo(n + 1);
    SdkProofExact(h, leaves, n);
  }

  // ---------------------------------------------------------------- the two rules compared

  /** For a power of two the odd rule never applies, so levels, root and proofs coincide. */
  lemma {:induction false} RulesAgreeOnPowersOfTwo(h: Hash, level: seq<Bytes32>, i: nat)
    requires |level| > 0 && |level| == Pow2(Height(|level|))
    ensures Levels(h, CarryUp, level) == Levels(h, DuplicateLast, level)
    ensures Root(h, CarryUp, level) == Root(h, DuplicateLast, level)
    ensures ProofFor(h, CarryUp, level, i) == ProofFor(h, DuplicateLast, level, i)
    decreases |level|
  {
    if |level| > 1 {
      assert |level| == 2 * Pow2(Height(|level|) - 1);
      var c, d := NextLevel(h, CarryUp, level), NextLevel(h, DuplicateLast, level);
      forall k | 0 <= k < |c| ensures c[k] == d[k] {
        assert c[k] == Parent(h, CarryUp, level, k) && d[k] == Parent(h, DuplicateLast, level, k);
      }
      assert c == d;
      RulesAgreeOnPowersOfTwo(h, c, i / 2);
    }
  }

  /** What the extractor says when the last leaf's carry-up proof is tried on the SDK's tree. */
  function RootVerdict(h: Hash, leaves: seq<Leaf>): Verdict
    requires leaves != []
  {
    var n := |leaves| - 1;
    Descend(h, DistributionTree(DuplicateLast, leaves), LeafPreimage(leaves[n]),
            ProofFor(h, CarryUp, LeafHashes(h, leaves), n))
  }

  /**
   The SDK's root equals the program's root if, and short of an explicit hash collision only
   if, the number of leaves is a power of two.
  */
  lemma {:induction false} RootsAgreeExact(h: Hash, leaves: seq<Leaf>)
    requires leaves != []
    ensures |leaves| == Pow2(Height(|leaves|)) ==>
              DistributionRoot(h, CarryUp, leaves) == DistributionRoot(h, DuplicateLast, leaves)
    ensures DistributionRoot(h, CarryUp, leaves) == DistributionRoot(h, DuplicateLast, leaves)
            && !YieldsCollision(h, RootVerdict(h, leaves))
            ==> |leaves| == Pow2(Height(|leaves|))
  {
    var level, n := LeafHashes(h, leaves), |leaves| - 1;
    if |leaves| == Pow2(Height(|leaves|)) {
      RulesAgreeOnPowersOfTwo(h, level, 0);
    }
    if DistributionRoot(h, CarryUp, leaves) == DistributionRoot(h, DuplicateLast, leaves) {
      Completeness(h, level, n);
      DistributionSoundness(h, DuplicateLast, leaves, leaves[n], ProofFor(h, CarryUp, level, n));
      ProofLength(h, CarryUp, level, n);
      LastPairedIffPowerOfTwo(|leaves|);
    }
  }
}
