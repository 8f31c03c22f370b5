/**
 The fee instructions as the program executes them: accounts are updated in place, step by
 step, and the runtime restores the snapshot when a handler fails.
*/
module FeeProgram {
  import opened Bytes
  import Merkle
  import opened HolderFees
  import opened Wrappers
  import ProgramMerkle

  class Accounts {
    const oracle: Pubkey
    var vault: nat
    var wallets: map<Pubkey, nat>
    var distributions: map<U64, Distribution>
    var receipts: map<ReceiptKey, HolderClaim>

    ghost function View(): State
      reads this
    {
      State(oracle, vault, wallets, distributions, receipts)
    }

    constructor (oracle: Pubkey, vault: nat, wallets: map<Pubkey, nat>)
      ensures View() == Initial(oracle, vault, wallets)
    {
      this.oracle, this.vault, this.wallets := oracle, vault, wallets;
      distributions, receipts := map[], map[];
    }

    /** `commit_distribution_root`: constraints, `init`, then `initialize` writes every field. */
    method CommitHandler(signer: Pubkey, epoch: U64, root: Bytes32, poolLamports: U64, slot: U64)
      returns (r: Result<(), Error>)
      modifies this
      ensures r.Success? ==>
                CommitDistributionRoot(old(View()), signer, epoch, root, poolLamports, slot) == Success(View())
      ensures r.Failure? ==>
                CommitDistributionRoot(old(View()), signer, epoch, root, poolLamports, slot) == Failure(r.error)
    {
      if signer != oracle {
        return Failure(OracleMismatch);
      }
      if epoch in distributions {
        return Failure(AccountInUse);
      }
      distributions := distributions[epoch := Distribution(0, seq(32, _ => 0), 0, 0)];
      if poolLamports == 0 {
        return Failure(InvalidAmount);
      }
      distributions := distributions[epoch := Distribution(epoch, root, poolLamports, slot)];
      assert distributions == old(distributions)[epoch := Distribution(epoch, root, poolLamports, slot)];
      r := Success(());
    }

    /** `claim_holder_fees`: the receipt is opened first, the vault debited before it is filled. */
    method ClaimHandler(h: Merkle.Hash, holder: Pubkey, epoch: U64, amount: U64, proof: seq<Bytes32>, slot: U64)
      returns (r: Result<(), Error>)
      modifies this
      ensures r.Success? ==>
                ClaimHolderFees(h, old(View()), holder, epoch, amount, proof, slot) == Success(View())
      ensures r.Failure? ==>
                ClaimHolderFees(h, old(View()), holder, epoch, amount, proof, slot) == Failure(r.error)
    {
      var key := ReceiptKey(holder, epoch);
      if epoch !in distributions {
        return Failure(AccountNotInitialized);
      }
      if distributions[epoch].epoch != epoch {
        return Failure(EpochNotCommitted);
      }
      if key in receipts {
        return Failure(AccountInUse);
      }
      receipts := receipts[key := HolderClaim(seq(32, _ => 0), 0, 0, 0)];
      if amount == 0 {
        return Failure(InvalidAmount);
      }
      var root := distributions[epoch].root;
      var leaf := ProgramMerkle.ComputeDistributionLeaf(h, holder, epoch, amount);
      var ok := ProgramMerkle.VerifyMerkleProof(h, leaf, proof, root);
      if !ok {
        return Failure(InvalidProof);
      }
      if vault < amount {
        return Failure(InsufficientVault);
      }
      vault := vault - amount;
      wallets := wallets[holder := Balance(wallets, holder) + amount];
      receipts := receipts[key := HolderClaim(holder, epoch, amount, slot)];
      assert receipts == old(receipts)[key := HolderClaim(holder, epoch, amount, slot)];
      r := Success(());
    }

    /** One transaction: dispatch, then roll back if the handler failed. */
    method Execute(h: Merkle.Hash, step: Step) returns (r: Result<(), Error>)
      modifies this
      ensures View() == Next(h, old(View()), step)
      ensures r.Success? <==> TryStep(h, old(View()), step).Success?
      ensures r.Failure? ==> TryStep(h, old(View()), step) == Failure(r.error)
    {
      var v, w, d, c := vault, wallets, distributions, receipts;
      match step {
        case Commit(signer, epoch, root, pool, slot) =>
          r := CommitHandler(signer, epoch, root, pool, slot);
        case Claim(holder, epoch, amount, proof, slot) =>
          r := ClaimHandler(h, holder, epoch, amount, proof, slot);
        case Deposit(lamports) =>
          vault := vault + lamports;
          r := Success(());
      }
      if r.Failure? {
        vault, wallets, distributions, receipts := v, w, d, c;
      }
    }

    /** A whole run of transactions. */
    method ExecuteAll(h: Merkle.Hash, steps: seq<Step>)
      modifies this
      ensures View() == Run(h, old(View()), steps)
    {
      for i := 0 to |steps|
        invariant View() == Run(h, old(View()), steps[..i])
      {
        assert steps[..i + 1][..i] == steps[..i];
        var _ := Execute(h, steps[i]);
      }
      assert steps[..|steps|] == steps;
    }
  }
}
