/**
 The holder-fee instructions as a state machine: `commit_distribution_root` and
 `claim_holder_fees` over the fee vault, the per-epoch distributions and the claim receipts,
 interleaved with deposits by anyone.

 Program-derived addresses are injective, so a distribution account is a map entry under its
 epoch and a receipt account is a map entry under its (holder, epoch) pair. An instruction
 that fails leaves the state as it was.
*/
module HolderFees {
  import opened Bytes
  import opened Merkle
  import opened Sums
  import opened Wrappers

  type Pubkey = Bytes32

  datatype Error =
    | OracleMismatch
    | AccountInUse        // Anchor `init` on an existing account
    | InvalidAmount
    | AccountNotInitialized   // Anchor loads the distribution before it checks anything on it
    | EpochNotCommitted
    | InvalidProof
    | InsufficientVault

  datatype Distribution = Distribution(epoch: U64, root: Bytes32, poolLamports: U64, committedAt: U64)

  datatype HolderClaim = HolderClaim(holder: Pubkey, epoch: U64, amountClaimed: U64, claimedAtSlot: U64)

  datatype ReceiptKey = ReceiptKey(holder: Pubkey, epoch: U64)

  datatype State = State(
    oracle: Pubkey,
    vault: nat,
    wallets: map<Pubkey, nat>,
    distributions: map<U64, Distribution>,
    receipts: map<ReceiptKey, HolderClaim>)

  datatype Step =
    | Commit(signer: Pubkey, epoch: U64, root: Bytes32, poolLamports: U64, slot: U64)
    | Claim(holder: Pubkey, epoch: U64, amount: U64, proof: seq<Bytes32>, slot: U64)
    | Deposit(lamports: nat)

  function Balance(wallets: map<Pubkey, nat>, k: Pubkey): nat {
    if k in wallets then wallets[k] else 0
  }

  // ---------------------------------------------------------------- instructions

  function CommitDistributionRoot(s: State, signer: Pubkey, epoch: U64, root: Bytes32, poolLamports: U64, slot: U64)
    : Result<State, Error>
  {
    var _ :- Require(signer == s.oracle, OracleMismatch);
    var _ :- Require(epoch !in s.distributions, AccountInUse);
    var _ :- Require(poolLamports > 0, InvalidAmount);
    Success(s.(distributions := s.distributions[epoch := Distribution(epoch, root, poolLamports, slot)]))
  }

  function ClaimHolderFees(h: Hash, s: State, holder: Pubkey, epoch: U64, amount: U64, proof: seq<Bytes32>, slot: U64)
    : Result<State, Error>
  {
    var key := ReceiptKey(holder, epoch);
    var _ :- Require(epoch in s.distributions, AccountNotInitialized);
    var _ :- Require(s.distributions[epoch].epoch == epoch, EpochNotCommitted);
    var _ :- Require(key !in s.receipts, AccountInUse);
    var _ :- Require(amount > 0, InvalidAmount);
    var _ :- Require(
      FoldProof(h, LeafHash(h, Leaf(holder, epoch, amount)), proof) == s.distributions[epoch].root, InvalidProof);
    var _ :- Require(s.vault >= amount, InsufficientVault);
    Success(s.(vault := s.vault - amount,
               wallets := s.wallets[holder := Balance(s.wallets, holder) + amount],
               receipts := s.receipts[key := HolderClaim(holder, epoch, amount, slot)]))
  }

  function TryStep(h: Hash, s: State, step: Step): Result<State, Error> {
    match step
    case Commit(signer, epoch, root, pool, slot) => CommitDistributionRoot(s, signer, epoch, root, pool, slot)
    case Claim(holder, epoch, amount, proof, slot) => ClaimHolderFees(h, s, holder, epoch, amount, proof, slot)
    case Deposit(lamports) => Success(s.(vault := s.vault + lamports))
  }

  /** One transaction: a failure is rolled back. */
  function Next(h: Hash, s: State, step: Step): State {
    match TryStep(h, s, step)
    case Success(t) => t
    case Failure(_) => s
  }

  function Run(h: Hash, s: State, steps: seq<Step>): State {
    if steps == [] then s
    else Next(h, Run(h, s, steps[..|steps| - 1]), steps[|steps| - 1])
  }

  function Initial(oracle: Pubkey, vault: nat, wallets: map<Pubkey, nat>): State {
    State(oracle, vault, wallets, map[], map[])
  }

  // ---------------------------------------------------------------- what a run paid

  function Deposited(steps: seq<Step>): nat {
    if steps == [] then 0
    else
      var last := steps[|steps| - 1];
      Deposited(steps[..|steps| - 1]) + (if last.Deposit? then last.lamports else 0)
  }

  /** The step is a claim that succeeds from `u`. */
  predicate Pays(h: Hash, u: State, step: Step) {
    step.Claim? && TryStep(h, u, step).Success?
  }

  /** Step `i` of the run is a claim that succeeded. */
  predicate PaidAt(h: Hash, s: State, steps: seq<Step>, i: nat)
    requires i < |steps|
  {
    Pays(h, Run(h, s, steps[..i]), steps[i])
  }

  /** The lamports paid by the successful claims of a run, for one epoch or for all. */
  function PaidIn(h: Hash, s: State, steps: seq<Step>, epoch: Option<U64>): nat {
    if steps == [] then 0
    else
      var n := |steps| - 1;
      PaidIn(h, s, steps[..n], epoch)
      + if PaidAt(h, s, steps, n) && (epoch.None? || steps[n].epoch == epoch.value) then steps[n].amount else 0
  }

  ghost function ReceiptAmounts(receipts: map<ReceiptKey, HolderClaim>, epoch: Option<U64>): map<ReceiptKey, nat> {
    map k | k in receipts && (epoch.None? || k.epoch == epoch.value) :: receipts[k].amountClaimed
  }

  // ---------------------------------------------------------------- invariant

  ghost predicate Inv(s: State) {
    && (forall e <- s.distributions :: s.distributions[e].epoch == e)
    && (forall k <- s.receipts ::
          && s.receipts[k].holder == k.holder && s.receipts[k].epoch == k.epoch
          && s.receipts[k].amountClaimed > 0
          && k.epoch in s.distributions)
  }

  lemma {:induction false} RunInv(h: Hash, s: State, steps: seq<Step>)
    requires Inv(s)
    ensures Inv(Run(h, s, steps))
  {
    if steps != [] {
      RunInv(h, s, steps[..|steps| - 1]);
    }
  }

  lemma {:induction false} RunSplit(h: Hash, s: State, first: seq<Step>, rest: seq<Step>)
    ensures Run(h, s, first + rest) == Run(h, Run(h, s, first), rest)
  {
    var all := first + rest;
    if rest == [] {
      assert all == first;
    } else {
      assert all[..|all| - 1] == first + rest[..|rest| - 1];
      RunSplit(h, s, first, rest[..|rest| - 1]);
    }
  }

  /** Roots and receipts never change once created. */
  lemma {:induction false} RecordsArePermanent(h: Hash, s: State, steps: seq<Step>)
    ensures var t := Run(h, s, steps);
            && t.oracle == s.oracle
            && (forall e <- s.distributions :: e in t.distributions && t.distributions[e] == s.distributions[e])
            && (forall k <- s.receipts :: k in t.receipts && t.receipts[k] == s.receipts[k])
  {
    if steps != [] {
      RecordsArePermanent(h, s, steps[..|steps| - 1]);
    }
  }

  /** What a successful claim leaves behind. */
  ghost predicate Paid(u: State, holder: Pubkey, epoch: U64, amount: nat, t: State) {
    var key := ReceiptKey(holder, epoch);
    && key !in u.receipts && key in t.receipts && t.receipts[key].amountClaimed == amount <= u.vault
    && t.receipts == u.receipts[key := t.receipts[key]]
    && t.vault == u.vault - amount
    && t.wallets == u.wallets[holder := Balance(u.wallets, holder) + amount]
  }

  /** What any other step leaves behind. */
  ghost predicate Unpaid(u: State, step: Step, t: State) {
    && t.receipts == u.receipts && t.wallets == u.wallets
    && t.vault == u.vault + if step.Deposit? then step.lamports else 0
  }

  lemma NextEffect(h: Hash, u: State, step: Step)
    ensures if Pays(h, u, step) then Paid(u, step.holder, step.epoch, step.amount, Next(h, u, step))
            else Unpaid(u, step, Next(h, u, step))
  {
  }

  // ---------------------------------------------------------------- conservation

  /** The receipts record exactly what the successful claims of the run paid. */
  lemma {:induction false} ReceiptsRecordPayments(h: Hash, s: State, steps: seq<Step>, epoch: Option<U64>)
    ensures MapSum(ReceiptAmounts(Run(h, s, steps).receipts, epoch))
            == MapSum(ReceiptAmounts(s.receipts, epoch)) + PaidIn(h, s, steps, epoch)
  {
    if steps != [] {
      var n := |steps| - 1;
      ReceiptsRecordPayments(h, s, steps[..n], epoch);
      var u := Run(h, s, steps[..n]);
      AmountsAfter(h, u, steps[n], epoch);
    }
  }

  lemma AmountsPaid(u: State, holder: Pubkey, epoch: U64, amount: nat, t: State, of: Option<U64>)
    requires Paid(u, holder, epoch, amount, t)
    ensures MapSum(ReceiptAmounts(t.receipts, of))
            == MapSum(ReceiptAmounts(u.receipts, of)) + if of.None? || epoch == of.value then amount else 0
  {
    var k := ReceiptKey(holder, epoch);
    var old', new' := ReceiptAmounts(u.receipts, of), ReceiptAmounts(t.receipts, of);
    if of.None? || epoch == of.value {
      assert new' == old'[k := amount];
      MapSumUpdate(old', k, amount);
    } else {
      assert new' == old';
    }
  }

  lemma AmountsAfter(h: Hash, u: State, step: Step, epoch: Option<U64>)
    ensures MapSum(ReceiptAmounts(Next(h, u, step).receipts, epoch))
            == MapSum(ReceiptAmounts(u.receipts, epoch))
               + if Pays(h, u, step) && (epoch.None? || step.epoch == epoch.value) then step.amount else 0
  {
    NextEffect(h, u, step);
    if Pays(h, u, step) {
      AmountsPaid(u, step.holder, step.epoch, step.amount, Next(h, u, step), epoch);
    }
  }

  /**
   Conservation over any run: the vault and the receipts together hold the initial vault and
   the deposits, and every lamport that left the vault arrived in a wallet.
  */
  lemma {:induction false} VaultConservation(h: Hash, s: State, steps: seq<Step>)
    requires s.receipts == map[]
    ensures var t := Run(h, s, steps);
            && t.vault + MapSum(ReceiptAmounts(t.receipts, None)) == s.vault + Deposited(steps)
            && t.vault + MapSum(t.wallets) == s.vault + Deposited(steps) + MapSum(s.wallets)
  {
    if steps == [] {
      assert ReceiptAmounts(s.receipts, None) == map[];
    } else {
      var n := |steps| - 1;
      VaultConservation(h, s, steps[..n]);
      VaultStep(h, Run(h, s, steps[..n]), steps[n]);
    }
  }

  lemma VaultPaid(u: State, holder: Pubkey, epoch: U64, amount: nat, t: State)
    requires Paid(u, holder, epoch, amount, t)
    ensures t.vault + MapSum(ReceiptAmounts(t.receipts, None)) == u.vault + MapSum(ReceiptAmounts(u.receipts, None))
    ensures t.vault + MapSum(t.wallets) == u.vault + MapSum(u.wallets)
  {
    AmountsPaid(u, holder, epoch, amount, t, None);
    MapSumUpdate(u.wallets, holder, Balance(u.wallets, holder) + amount);
  }

  lemma VaultStep(h: Hash, u: State, step: Step)
    ensures var t := Next(h, u, step);
            var added := if step.Deposit? then step.lamports else 0;
            && t.vault + MapSum(ReceiptAmounts(t.receipts, None))
               == u.vault + MapSum(ReceiptAmounts(u.receipts, None)) + added
            && t.vault + MapSum(t.wallets) == u.vault + MapSum(u.wallets) + added
  {
    NextEffect(h, u, step);
    if Pays(h, u, step) {
      VaultPaid(u, step.holder, step.epoch, step.amount, Next(h, u, step));
    }
  }

  /** Each wallet gains exactly its own receipts. */
  ghost function OwnReceipts(receipts: map<ReceiptKey, HolderClaim>, who: Pubkey): map<ReceiptKey, nat> {
    map k | k in receipts && k.holder == who :: receipts[k].amountClaimed
  }

  lemma {:induction false} WalletGains(h: Hash, s: State, steps: seq<Step>, who: Pubkey)
    requires s.receipts == map[]
    ensures var t := Run(h, s, steps);
            Balance(t.wallets, who) == Balance(s.wallets, who) + MapSum(OwnReceipts(t.receipts, who))
  {
    if steps == [] {
      assert OwnReceipts(s.receipts, who) == map[];
    } else {
      var n := |steps| - 1;
      WalletGains(h, s, steps[..n], who);
      WalletGainsStep(h, Run(h, s, steps[..n]), steps[n], who);
    }
  }

  lemma OwnReceiptsPaid(u: State, holder: Pubkey, epoch: U64, amount: nat, t: State, who: Pubkey)
    requires Paid(u, holder, epoch, amount, t)
    ensures MapSum(OwnReceipts(t.receipts, who))
            == MapSum(OwnReceipts(u.receipts, who)) + if holder == who then amount else 0
  {
    var k := ReceiptKey(holder, epoch);
    var old', new' := OwnReceipts(u.receipts, who), OwnReceipts(t.receipts, who);
    if holder == who {
      assert new' == old'[k := amount];
      MapSumUpdate(old', k, amount);
    } else {
      assert new' == old';
    }
  }

  lemma GainsPaid(u: State, holder: Pubkey, epoch: U64, amount: nat, t: State, who: Pubkey)
    requires Paid(u, holder, epoch, amount, t)
    ensures Balance(t.wallets, who) + MapSum(OwnReceipts(u.receipts, who))
            == Balance(u.wallets, who) + MapSum(OwnReceipts(t.receipts, who))
  {
    OwnReceiptsPaid(u, holder, epoch, amount, t, who);
  }

  lemma WalletGainsStep(h: Hash, u: State, step: Step, who: Pubkey)
    ensures var t := Next(h, u, step);
            Balance(t.wallets, who) + MapSum(OwnReceipts(u.receipts, who))
            == Balance(u.wallets, who) + MapSum(OwnReceipts(t.receipts, who))
  {
    NextEffect(h, u, step);
    if Pays(h, u, step) {
      GainsPaid(u, step.holder, step.epoch, step.amount, Next(h, u, step), who);
    }
  }

  // ---------------------------------------------------------------- single claim

  /** No two successful claims of a run are for the same holder and epoch. */
  lemma SingleClaim(h: Hash, s: State, steps: seq<Step>, i: nat, j: nat)
    requires i < j < |steps| && PaidAt(h, s, steps, i) && PaidAt(h, s, steps, j)
    ensures steps[i].holder != steps[j].holder || steps[i].epoch != steps[j].epoch
  {
    var first := steps[..i + 1];
    assert first[..i] == steps[..i];
    assert ReceiptKey(steps[i].holder, steps[i].epoch) in Run(h, s, first).receipts;
    assert first + steps[i + 1..j] == steps[..j];
    RunSplit(h, s, first, steps[i + 1..j]);
    RecordsArePermanent(h, Run(h, s, first), steps[i + 1..j]);
  }
}
