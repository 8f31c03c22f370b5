/**
 What claims pay in all: never more than the leaf lists grant, and, with enough lamports in the
 vault, everything that is left to claim, short of an exhibited hash collision.
*/
module FeePayouts {
  import opened Bytes
  import FeeClaims
  import opened HolderFees
  import opened Merkle
  import MerkleShape
  import opened Sums
  import opened Wrappers

  // ---------------------------------------------------------------- payout bound

  /** The sum of the amounts that a leaf list grants in one epoch. */
  function EpochTotal(leaves: seq<Leaf>, epoch: U64): nat {
    if leaves == [] then 0
    else (if leaves[0].epoch == epoch then leaves[0].amount else 0) + EpochTotal(leaves[1..], epoch)
  }

  /** Every amount is one that the list grants to that holder in that epoch. */
  ghost predicate Granted(m: map<ReceiptKey, nat>, leaves: seq<Leaf>, epoch: U64) {
    forall k <- m :: k.epoch == epoch && m[k] <= U64_MAX && Leaf(k.holder, epoch, m[k]) in leaves
  }

  /** One grant per holder can never exceed the list's total. */
  lemma {:induction false} GrantedBound(m: map<ReceiptKey, nat>, leaves: seq<Leaf>, epoch: U64)
    requires Granted(m, leaves, epoch)
    ensures MapSum(m) <= EpochTotal(leaves, epoch)
  {
    if leaves == [] {
      assert m.Keys == {};
    } else {
      var l := leaves[0];
      var k := ReceiptKey(l.holder, epoch);
      if k in m && Leaf(k.holder, epoch, m[k]) == l {
        MapSumRemove(m, k);
        GrantedByRest(m - {k}, leaves, epoch);
        GrantedBound(m - {k}, leaves[1..], epoch);
      } else {
        GrantedByRest(m, leaves, epoch);
        GrantedBound(m, leaves[1..], epoch);
      }
    }
  }

  lemma GrantedByRest(m: map<ReceiptKey, nat>, leaves: seq<Leaf>, epoch: U64)
    requires leaves != [] && Granted(m, leaves, epoch)
    requires forall k <- m :: Leaf(k.holder, epoch, m[k]) != leaves[0]
    ensures Granted(m, leaves[1..], epoch)
  {
    forall k <- m ensures Leaf(k.holder, epoch, m[k]) in leaves[1..] {
      var i :| 0 <= i < |leaves| && leaves[i] == Leaf(k.holder, epoch, m[k]);
      assert leaves[1..][i - 1] == leaves[i];
    }
  }

  /** A leaf list and the builder that made its root: the program's or the SDK's. */
  datatype Listing = Listing(rule: OddRule, leaves: seq<Leaf>)

  /**
   Re-checks every claim of a run that was paid for `epoch` against the leaf list: the first
   collision that some paid proof exhibits, or `Member` when there is none.
  */
  function Audit(h: Hash, s: State, steps: seq<Step>, list: Listing, epoch: U64): Verdict
    requires list.leaves != []
  {
    if steps == [] then Member
    else
      var n := |steps| - 1;
      var before := Audit(h, s, steps[..n], list, epoch);
      if before.Clash? then before
      else if PaidAt(h, s, steps, n) && steps[n].epoch == epoch then
        Descend(h, DistributionTree(list.rule, list.leaves),
                LeafPreimage(Leaf(steps[n].holder, epoch, steps[n].amount)), steps[n].proof)
      else Member
  }

  /** The committed root of `epoch` is the one that the listed builder computes. */
  ghost predicate BuiltFrom(h: Hash, s: State, epoch: U64, list: Listing) {
    && list.leaves != []
    && epoch in s.distributions
    && s.distributions[epoch].root == DistributionRoot(h, list.rule, list.leaves)
  }

  /** A claim that is paid against a listed root adds a grant, or its proof exhibits a collision. */
  lemma {:induction false} AuditPaid(h: Hash, u: State, step: Step, t: State, list: Listing, epoch: U64)
    requires Pays(h, u, step) && t == Next(h, u, step) && step.epoch == epoch && BuiltFrom(h, u, epoch, list)
    requires Granted(ReceiptAmounts(u.receipts, Some(epoch)), list.leaves, epoch)
    ensures match Descend(h, DistributionTree(list.rule, list.leaves),
                          LeafPreimage(Leaf(step.holder, epoch, step.amount)), step.proof)
            case Clash(x, y) => IsCollision(h, x, y)
            case Member => Granted(ReceiptAmounts(t.receipts, Some(epoch)), list.leaves, epoch)
  {
    NextEffect(h, u, step);
    DistributionSoundness(h, list.rule, list.leaves, Leaf(step.holder, epoch, step.amount), step.proof);
  }

  lemma {:induction false} AuditUnpaid(h: Hash, u: State, step: Step, t: State, epoch: U64)
    requires t == Next(h, u, step) && !(Pays(h, u, step) && step.epoch == epoch)
    ensures ReceiptAmounts(t.receipts, Some(epoch)) == ReceiptAmounts(u.receipts, Some(epoch))
  {
    NextEffect(h, u, step);
  }

  /** Either the audit exhibits a genuine collision, or every receipt is a grant of the list. */
  lemma {:induction false} AuditSound(h: Hash, s: State, steps: seq<Step>, list: Listing, epoch: U64)
    requires Inv(s) && s.receipts == map[] && BuiltFrom(h, Run(h, s, steps), epoch, list)
    ensures match Audit(h, s, steps, list, epoch)
            case Clash(x, y) => IsCollision(h, x, y)
            case Member => Granted(ReceiptAmounts(Run(h, s, steps).receipts, Some(epoch)), list.leaves, epoch)
  {
    if steps != [] {
      var n := |steps| - 1;
      var u := Run(h, s, steps[..n]);
      if epoch in u.distributions {
        RecordsArePermanent(h, u, [steps[n]]);
        assert [steps[n]][..0] == [];
        AuditSound(h, s, steps[..n], list, epoch);
        if PaidAt(h, s, steps, n) && steps[n].epoch == epoch {
          if Audit(h, s, steps[..n], list, epoch).Member? {
            AuditPaid(h, u, steps[n], Run(h, s, steps), list, epoch);
          }
        } else {
          AuditUnpaid(h, u, steps[n], Run(h, s, steps), epoch);
        }
      } else {
        RunInv(h, s, steps[..n]);
        NothingPaidBeforeCommit(h, s, steps[..n], list, epoch);
      }
    }
  }

  lemma {:induction false} NothingPaidBeforeCommit(h: Hash, s: State, steps: seq<Step>, list: Listing, epoch: U64)
    requires list.leaves != [] && epoch !in Run(h, s, steps).distributions
    ensures Audit(h, s, steps, list, epoch).Member?
  {
    if steps != [] {
      NothingPaidBeforeCommit(h, s, steps[..|steps| - 1], list, epoch);
    }
  }

  /**
   The payout bound over whole runs: whatever commits, deposits and claims (with arbitrary
   proofs) are interleaved, the lamports paid for an epoch whose root either builder made from
   a leaf list never exceed what the list grants in that epoch, unless two distinct preimages with
   the same digest are produced.
  */
  lemma PayoutBound(h: Hash, s: State, steps: seq<Step>, list: Listing, epoch: U64)
    requires Inv(s) && s.receipts == map[] && BuiltFrom(h, Run(h, s, steps), epoch, list)
    ensures match Audit(h, s, steps, list, epoch)
            case Clash(x, y) => IsCollision(h, x, y)
            case Member => PaidIn(h, s, steps, Some(epoch)) <= EpochTotal(list.leaves, epoch)
  {
    AuditSound(h, s, steps, list, epoch);
    if Audit(h, s, steps, list, epoch).Member? {
      GrantedBound(ReceiptAmounts(Run(h, s, steps).receipts, Some(epoch)), list.leaves, epoch);
      ReceiptsRecordPayments(h, s, steps, Some(epoch));
      assert ReceiptAmounts(s.receipts, Some(epoch)) == map[];
    }
  }

  // ---------------------------------------------------------------- solvency

  /** `book` holds, for every committed epoch, the leaf list its root was built from. */
  ghost predicate BookFits(h: Hash, s: State, book: map<U64, Listing>) {
    forall e <- s.distributions :: e in book && BuiltFrom(h, s, e, book[e])
  }

  ghost function BookTotals(s: State, book: map<U64, Listing>): map<U64, nat>
    requires forall e <- s.distributions :: e in book
  {
    map e | e in s.distributions :: EpochTotal(book[e].leaves, e)
  }

  /** The part of `m` that belongs to one epoch. */
  ghost function InEpoch(m: map<ReceiptKey, nat>, epoch: U64): map<ReceiptKey, nat> {
    map k | k in m && k.epoch == epoch :: m[k]
  }

  ghost function OutsideEpoch(m: map<ReceiptKey, nat>, epoch: U64): map<ReceiptKey, nat> {
    map k | k in m && k.epoch != epoch :: m[k]
  }

  lemma {:induction false} SplitByEpoch(m: map<ReceiptKey, nat>, epoch: U64)
    ensures MapSum(m) == MapSum(InEpoch(m, epoch)) + MapSum(OutsideEpoch(m, epoch))
    ensures forall f: U64 :: f != epoch ==> InEpoch(OutsideEpoch(m, epoch), f) == InEpoch(m, f)
  {
    assert m == InEpoch(m, epoch) + OutsideEpoch(m, epoch);
    MapSumUnion(InEpoch(m, epoch), OutsideEpoch(m, epoch));
  }

  ghost predicate GrantedIn(m: map<ReceiptKey, nat>, totals: map<U64, nat>, book: map<U64, Listing>) {
    && (forall k <- m :: k.epoch in totals)
    && (forall e <- totals ::
          e in book && totals[e] == EpochTotal(book[e].leaves, e) && Granted(InEpoch(m, e), book[e].leaves, e))
  }

  lemma {:induction false} GrantedWithout(m: map<ReceiptKey, nat>, totals: map<U64, nat>,
                                            book: map<U64, Listing>, e: U64)
    requires GrantedIn(m, totals, book)
    ensures GrantedIn(OutsideEpoch(m, e), totals - {e}, book)
  {
    SplitByEpoch(m, e);
  }

  /** Grants of several epochs are bounded by the sum of the epochs' totals. */
  lemma {:induction false} GrantedEverywhere(m: map<ReceiptKey, nat>, totals: map<U64, nat>, book: map<U64, Listing>)
    requires GrantedIn(m, totals, book)
    ensures MapSum(m) <= MapSum(totals)
    decreases |totals|
  {
    if totals == map[] {
      assert m.Keys == {};
    } else {
      var e :| e in totals;
      SplitByEpoch(m, e);
      GrantedBound(InEpoch(m, e), book[e].leaves, e);
      MapSumRemove(totals, e);
      GrantedWithout(m, totals, book, e);
      GrantedEverywhere(OutsideEpoch(m, e), totals - {e}, book);
    }
  }

  /** A leaf of `epoch` that is not yet claimed still fits in the totals beside all receipts. */
  lemma {:induction false} UnclaimedFits(t: State, book: map<U64, Listing>, l: Leaf)
    requires Inv(t) && l.epoch in t.distributions && ReceiptKey(l.holder, l.epoch) !in t.receipts
    requires forall e <- t.distributions ::
               e in book && Granted(ReceiptAmounts(t.receipts, Some(e)), book[e].leaves, e)
    requires l in book[l.epoch].leaves
    ensures MapSum(ReceiptAmounts(t.receipts, None)) + l.amount <= MapSum(BookTotals(t, book))
  {
    var m := ReceiptAmounts(t.receipts, None);
    var key := ReceiptKey(l.holder, l.epoch);
    var more := m[key := l.amount];
    forall e <- t.distributions ensures Granted(InEpoch(more, e), book[e].leaves, e) {
      forall k <- InEpoch(more, e)
        ensures k.epoch == e && more[k] <= U64_MAX && Leaf(k.holder, e, more[k]) in book[e].leaves
      {
        assert k != key ==> k in ReceiptAmounts(t.receipts, Some(e));
      }
    }
    GrantedEverywhere(more, BookTotals(t, book), book);
    MapSumUpdate(m, key, l.amount);
  }

  /** The full proof of leaf `i` of a listing. */
  function OwnProof(h: Hash, list: Listing, i: nat): seq<Bytes32>
    requires i < |list.leaves|
  {
    MerkleShape.FullProof(h, list.rule, LeafHashes(h, list.leaves), i)
  }

  /**
   Solvency in any order: if the vault received at least the totals of all committed epochs,
   then in every reachable state every unclaimed leaf can be claimed with its full proof,
   unless the audit of some committed epoch exhibits a genuine hash collision.
  */
  lemma {:induction false} Solvency(h: Hash, s: State, steps: seq<Step>, book: map<U64, Listing>,
                                      epoch: U64, i: nat, slot: U64)
    requires Inv(s) && s.receipts == map[] && BookFits(h, Run(h, s, steps), book)
    requires MapSum(BookTotals(Run(h, s, steps), book)) <= s.vault + Deposited(steps)
    requires epoch in Run(h, s, steps).distributions && i < |book[epoch].leaves|
    requires book[epoch].leaves[i].epoch == epoch && book[epoch].leaves[i].amount > 0
    requires ReceiptKey(book[epoch].leaves[i].holder, epoch) !in Run(h, s, steps).receipts
    ensures var t, l := Run(h, s, steps), book[epoch].leaves[i];
            || (exists e <- t.distributions :: MerkleShape.YieldsCollision(h, Audit(h, s, steps, book[e], e)))
            || ClaimHolderFees(h, t, l.holder, epoch, l.amount, OwnProof(h, book[epoch], i), slot).Success?
  {
    var t, l := Run(h, s, steps), book[epoch].leaves[i];
    if forall e <- t.distributions :: Audit(h, s, steps, book[e], e).Member? {
      RunInv(h, s, steps);
      forall e <- t.distributions ensures Granted(ReceiptAmounts(t.receipts, Some(e)), book[e].leaves, e) {
        AuditSound(h, s, steps, book[e], e);
      }
      UnclaimedFits(t, book, l);
      VaultConservation(h, s, steps);
      MerkleShape.FullCompleteness(h, book[epoch].rule, LeafHashes(h, book[epoch].leaves), i);
      FeeClaims.ClaimExact(h, t, l.holder, epoch, l.amount, OwnProof(h, book[epoch], i), slot);
    } else {
      var e :| e in t.distributions && Audit(h, s, steps, book[e], e).Clash?;
      AuditSound(h, s, steps, book[e], e);
    }
  }

  // ---------------------------------------------------------------- the SDK's proofs

  /**
   What a holder whose epoch was committed with the SDK's root can do with the proof that the
   SDK hands out: the claim succeeds if, and short of an explicit hash collision only if, no
   node on the leaf's path lacks a sibling. Money granted to the others stays in the vault
   unless they complete their proofs by hand.
  */
  lemma {:induction false} SdkClaimExact(h: Hash, s: State, leaves: seq<Leaf>, i: nat, slot: U64)
    requires Inv(s) && i < |leaves|
    requires BuiltFrom(h, s, leaves[i].epoch, Listing(DuplicateLast, leaves))
    requires ReceiptKey(leaves[i].holder, leaves[i].epoch) !in s.receipts && 0 < leaves[i].amount <= s.vault
    ensures var l := leaves[i];
            var r := ClaimHolderFees(h, s, l.holder, l.epoch, l.amount,
                                     ProofFor(h, DuplicateLast, LeafHashes(h, leaves), i), slot);
            && (MerkleShape.AllPaired(|leaves|, i) ==> r.Success?)
            && (!MerkleShape.AllPaired(|leaves|, i)
                && !MerkleShape.YieldsCollision(h, MerkleShape.SdkVerdict(h, leaves, i))
                ==> r == Failure(InvalidProof))
  {
    MerkleShape.SdkProofExact(h, leaves, i);
  }
}
