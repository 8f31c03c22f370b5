/**
 Claims: when they succeed, what they change, and which error they give otherwise.
*/
module FeeClaims {
  import opened Bytes
  import opened HolderFees
  import opened Merkle
  import opened Wrappers

  /** The proof leads from the claimed leaf to the committed root. */
  ghost predicate ProofReaches(h: Hash, s: State, holder: Pubkey, epoch: U64, amount: U64, proof: seq<Bytes32>)
    requires epoch in s.distributions
  {
    FoldProof(h, LeafHash(h, Leaf(holder, epoch, amount)), proof) == s.distributions[epoch].root
  }

  /** From `s` to `t`, `holder` was paid `amount` out of the vault, with a receipt, and nothing else changed. */
  ghost predicate ClaimedOnly(s: State, t: State, holder: Pubkey, epoch: U64, amount: U64, slot: U64) {
    && t.vault + amount == s.vault
    && Balance(t.wallets, holder) == Balance(s.wallets, holder) + amount
    && (forall w :: w != holder ==> Balance(t.wallets, w) == Balance(s.wallets, w))
    && t.receipts.Keys == s.receipts.Keys + {ReceiptKey(holder, epoch)}
    && t.receipts[ReceiptKey(holder, epoch)] == HolderClaim(holder, epoch, amount, slot)
    && (forall k <- s.receipts :: t.receipts[k] == s.receipts[k])
    && t.distributions == s.distributions && t.oracle == s.oracle
  }

  /** A claim succeeds exactly under these conditions, and then changes exactly this much. */
  lemma {:induction false} ClaimExact(h: Hash, s: State, holder: Pubkey, epoch: U64, amount: U64,
                                        proof: seq<Bytes32>, slot: U64)
    requires Inv(s)
    ensures var r := ClaimHolderFees(h, s, holder, epoch, amount, proof, slot);
            && (r.Success? <==>
                  && epoch in s.distributions
                  && ReceiptKey(holder, epoch) !in s.receipts
                  && 0 < amount <= s.vault
                  && ProofReaches(h, s, holder, epoch, amount, proof))
            && (r.Success? ==> ClaimedOnly(s, r.value, holder, epoch, amount, slot))
  {
    var r := ClaimHolderFees(h, s, holder, epoch, amount, proof, slot);
    if r.Success? {
      assert r.value.receipts.Keys == s.receipts.Keys + {ReceiptKey(holder, epoch)};
    }
  }

  /** A claim that fails gives the error of the first condition that does not hold. */
  lemma {:induction false} ClaimErrors(h: Hash, s: State, holder: Pubkey, epoch: U64, amount: U64,
                                         proof: seq<Bytes32>, slot: U64)
    requires Inv(s) && ClaimHolderFees(h, s, holder, epoch, amount, proof, slot).Failure?
    ensures ClaimHolderFees(h, s, holder, epoch, amount, proof, slot).error ==
            if epoch !in s.distributions then AccountNotInitialized
            else if ReceiptKey(holder, epoch) in s.receipts then AccountInUse
            else if amount == 0 then InvalidAmount
            else if !ProofReaches(h, s, holder, epoch, amount, proof) then InvalidProof
            else InsufficientVault
  {
  }
}
