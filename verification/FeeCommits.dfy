/**
 Commits: when they succeed, what they store, and where the distributions of a run come from.
*/
module FeeCommits {
  import opened Bytes
  import opened FeePayouts
  import opened HolderFees
  import opened Merkle
  import opened Wrappers

  /** A failed transaction changes nothing; a successful one has exactly its own result. */
  lemma {:induction false} Rollback(h: Hash, s: State, step: Step)
    ensures TryStep(h, s, step).Failure? ==> Next(h, s, step) == s
    ensures TryStep(h, s, step).Success? ==> TryStep(h, s, step) == Success(Next(h, s, step))
  {
  }

  /** When a commit succeeds, what it stores and what it leaves alone; otherwise which error it gives. */
  lemma {:induction false} CommitExact(s: State, signer: Pubkey, epoch: U64, root: Bytes32, poolLamports: U64,
                                         slot: U64)
    ensures var r := CommitDistributionRoot(s, signer, epoch, root, poolLamports, slot);
            && (r.Success? <==> signer == s.oracle && epoch !in s.distributions && poolLamports > 0)
            && (r.Success? ==>
                  && r.value.distributions.Keys == s.distributions.Keys + {epoch}
                  && r.value.distributions[epoch].epoch == epoch
                  && r.value.distributions[epoch].root == root
                  && r.value.distributions[epoch].poolLamports == poolLamports
                  && r.value.distributions[epoch].committedAt == slot
                  && (forall e <- s.distributions :: r.value.distributions[e] == s.distributions[e])
                  && r.value.oracle == s.oracle && r.value.vault == s.vault
                  && r.value.wallets == s.wallets && r.value.receipts == s.receipts)
            && (r.Failure? ==>
                  r.error == if signer != s.oracle then OracleMismatch
                             else if epoch in s.distributions then AccountInUse
                             else InvalidAmount)
  {
  }

  /** Step `i` of the run commits `epoch` as `d` says, signed by the oracle. */
  ghost predicate CommitsAt(s: State, steps: seq<Step>, i: nat, epoch: U64, d: Distribution)
    requires i < |steps|
  {
    steps[i] == Commit(s.oracle, epoch, d.root, d.poolLamports, d.committedAt) && d.epoch == epoch && d.poolLamports > 0
  }

  lemma {:induction false} CommitAppears(h: Hash, u: State, step: Step, e: U64)
    requires e in Next(h, u, step).distributions && e !in u.distributions
    ensures var d := Next(h, u, step).distributions[e];
            step == Commit(u.oracle, e, d.root, d.poolLamports, d.committedAt) && d.epoch == e && d.poolLamports > 0
  {
  }

  /** Every distribution of a run was committed by a step of that run, by the oracle, exactly as it stands. */
  lemma {:induction false} DistributionsAreCommitted(h: Hash, s: State, steps: seq<Step>, e: U64)
    requires e in Run(h, s, steps).distributions && e !in s.distributions
    ensures exists i :: 0 <= i < |steps| && CommitsAt(s, steps, i, e, Run(h, s, steps).distributions[e])
  {
    var n := |steps| - 1;
    var u := Run(h, s, steps[..n]);
    RecordsArePermanent(h, s, steps[..n]);
    RecordsArePermanent(h, u, [steps[n]]);
    assert [steps[n]][..0] == [];
    if e in u.distributions {
      DistributionsAreCommitted(h, s, steps[..n], e);
      var i :| 0 <= i < n && CommitsAt(s, steps[..n], i, e, u.distributions[e]);
      assert CommitsAt(s, steps, i, e, Run(h, s, steps).distributions[e]);
    } else {
      CommitAppears(h, u, steps[n], e);
      assert CommitsAt(s, steps, n, e, Run(h, s, steps).distributions[e]);
    }
  }

  /** Once the oracle has committed a builder's root, the epoch is built from that list in every continuation. */
  lemma {:induction false} CommittedStaysBuilt(h: Hash, s: State, epoch: U64, list: Listing, pool: U64, slot: U64,
                                               rest: seq<Step>)
    requires list.leaves != [] && epoch !in s.distributions && pool > 0
    ensures var step := Commit(s.oracle, epoch, DistributionRoot(h, list.rule, list.leaves), pool, slot);
            BuiltFrom(h, Run(h, Next(h, s, step), rest), epoch, list)
  {
    var root := DistributionRoot(h, list.rule, list.leaves);
    CommitExact(s, s.oracle, epoch, root, pool, slot);
    RecordsArePermanent(h, Next(h, s, Commit(s.oracle, epoch, root, pool, slot)), rest);
  }

  /** Only the oracle commits, and once per epoch: later commits fail whatever they carry. */
  lemma {:induction false} OneRootPerEpoch(h: Hash, s: State, steps: seq<Step>, signer: Pubkey, epoch: U64,
                                             root: Bytes32, pool: U64, slot: U64)
    requires epoch in s.distributions
    ensures CommitDistributionRoot(Run(h, s, steps), signer, epoch, root, pool, slot).Failure?
    ensures CommitDistributionRoot(Run(h, s, steps), signer, epoch, root, pool, slot).error ==
            if signer == s.oracle then AccountInUse else OracleMismatch
  {
    RecordsArePermanent(h, s, steps);
  }
}
