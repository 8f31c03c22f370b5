/**
 The SPL token operations: open, mint, transfer, approve, revoke, burn, close and change of owner.

 An address is a key or one of the derived addresses the program uses; derived addresses are
 injective in what they are derived from and nobody holds their private key.
*/
module Token {
  import opened Bytes
  import opened Sums
  import opened Wrappers

  datatype Address =
    | Key(id: nat)
    | PetPda(owner: Address, name: Octets)
    | KingPda(pet: Address)
    | EscrowPda(king: Address)
    | Ata(wallet: Address, mint: Address)

  /** The all-zero key: `Pubkey::default()` and the System Program are the same address. */
  const SYSTEM_PROGRAM: Address := Key(0)

  datatype Account = Account(owner: Address, mint: Address, amount: nat, delegate: Option<Address>, delegated: nat)

  type Ledger = map<Address, Account>

  datatype Mint = Mint(authority: Address, supply: nat)

  datatype TokenError =
    | AccountMissing
    | AddressTaken
    | InsufficientFunds
    | NonZeroBalance
    | UnequalMints
    | OwnerMismatch
    | Overflow

  /** Who may revoke a delegation: the SPL rule, or one that also accepts the delegate itself. */
  datatype RevokeRule = OwnerOnly | OwnerOrDelegate

  // ---------------------------------------------------------------- operations

  function Open(l: Ledger, id: Address, owner: Address, mint: Address): Result<Ledger, TokenError> {
    var _ :- Require(id !in l, AddressTaken);
    Success(l[id := Account(owner, mint, 0, None, 0)])
  }

  /** Credits new tokens; the caller has checked the mint's authority and supply. */
  function Credit(l: Ledger, to: Address, mint: Address, amount: nat): Result<Ledger, TokenError> {
    var _ :- Require(to in l, AccountMissing);
    var _ :- Require(l[to].mint == mint, UnequalMints);
    var _ :- Require(l[to].amount + amount <= U64_MAX, Overflow);
    Success(l[to := l[to].(amount := l[to].amount + amount)])
  }

  /**
   Takes `amount` out of an account on the owner's or a sufficient delegate's authority. A
   delegate consumes allowance and loses the delegation with the last unit.
  */
  function Debit(acc: Account, authority: Address, amount: nat): Result<Account, TokenError>
    requires acc.amount >= amount
  {
    var byDelegate := acc.delegate == Some(authority);
    var _ :- Require(byDelegate || acc.owner == authority, OwnerMismatch);
    var _ :- Require(byDelegate ==> acc.delegated >= amount, InsufficientFunds);
    var left := acc.delegated - (if byDelegate then amount else 0);
    Success(acc.(amount := acc.amount - amount,
                 delegated := left,
                 delegate := if byDelegate && left == 0 then None else acc.delegate))
  }

  /** Needs equal mints and enough funds; to itself a transfer is checked but changes nothing. */
  function Transfer(l: Ledger, from: Address, to: Address, authority: Address, amount: nat)
    : Result<Ledger, TokenError>
  {
    var _ :- Require(from in l && to in l, AccountMissing);
    var _ :- Require(l[from].amount >= amount, InsufficientFunds);
    var _ :- Require(l[from].mint == l[to].mint, UnequalMints);
    var debited :- Debit(l[from], authority, amount);
    if from == to then Success(l) else
    var _ :- Require(l[to].amount + amount <= U64_MAX, Overflow);
    Success(l[from := debited][to := l[to].(amount := l[to].amount + amount)])
  }

  /** The caller takes what was burned off the mint's supply. */
  function Burn(l: Ledger, account: Address, authority: Address, amount: nat): Result<Ledger, TokenError> {
    var _ :- Require(account in l, AccountMissing);
    var _ :- Require(l[account].amount >= amount, InsufficientFunds);
    var debited :- Debit(l[account], authority, amount);
    Success(l[account := debited])
  }

  function Close(l: Ledger, account: Address, authority: Address): Result<Ledger, TokenError> {
    var _ :- Require(account in l, AccountMissing);
    var _ :- Require(l[account].amount == 0, NonZeroBalance);
    var _ :- Require(l[account].owner == authority, OwnerMismatch);
    Success(l - {account})
  }

  /** `SetAuthority` on an account: the new owner starts without a delegate. */
  function SetOwner(l: Ledger, account: Address, owner: Address, authority: Address): Result<Ledger, TokenError> {
    var _ :- Require(account in l, AccountMissing);
    var _ :- Require(l[account].owner == authority, OwnerMismatch);
    Success(l[account := l[account].(owner := owner, delegate := None, delegated := 0)])
  }

  function Approve(l: Ledger, account: Address, delegate: Address, authority: Address, amount: nat)
    : Result<Ledger, TokenError>
  {
    var _ :- Require(account in l, AccountMissing);
    var _ :- Require(l[account].owner == authority, OwnerMismatch);
    Success(l[account := l[account].(delegate := Some(delegate), delegated := amount)])
  }

  function Revoke(rule: RevokeRule, l: Ledger, account: Address, authority: Address): Result<Ledger, TokenError> {
    var _ :- Require(account in l, AccountMissing);
    var byDelegate := rule.OwnerOrDelegate? && l[account].delegate == Some(authority);
    var _ :- Require(byDelegate || l[account].owner == authority, OwnerMismatch);
    Success(l[account := l[account].(delegate := None, delegated := 0)])
  }

  // ---------------------------------------------------------------- who may do what

  /** The owner, or a delegate with enough allowance; the allowance also binds an owner who is the delegate. */
  predicate CanDebit(acc: Account, authority: Address, amount: nat) {
    if acc.delegate == Some(authority) then acc.delegated >= amount else acc.owner == authority
  }

  predicate CanTransfer(l: Ledger, from: Address, to: Address, authority: Address, amount: nat) {
    && from in l && to in l && l[from].mint == l[to].mint
    && l[from].amount >= amount && CanDebit(l[from], authority, amount)
    && (from != to ==> l[to].amount + amount <= U64_MAX)
  }

  /** Exactly when a transfer succeeds, and the error of each way to fail. */
  lemma {:induction false} TransferExact(l: Ledger, from: Address, to: Address, authority: Address, amount: nat)
    ensures var r := Transfer(l, from, to, authority, amount);
            && (r.Success? <==> CanTransfer(l, from, to, authority, amount))
            && (r.Failure? ==>
                  r.error == if from !in l || to !in l then AccountMissing
                             else if l[from].amount < amount then InsufficientFunds
                             else if l[from].mint != l[to].mint then UnequalMints
                             else if l[from].delegate == Some(authority) && l[from].delegated < amount
                               then InsufficientFunds
                             else if !CanDebit(l[from], authority, amount) then OwnerMismatch
                             else Overflow)
  {
  }

  // ---------------------------------------------------------------- supply

  ghost function Balances(l: Ledger, mint: Address): map<Address, nat> {
    map a | a in l && l[a].mint == mint :: l[a].amount
  }

  /** The tokens of a mint in circulation. */
  ghost function Supply(l: Ledger, mint: Address): nat {
    MapSum(Balances(l, mint))
  }

  /** Writing one account changes only that account's part of the supply of its mint. */
  lemma SupplyOfUpdate(l: Ledger, id: Address, acc: Account, mint: Address)
    requires id in l ==> l[id].mint == acc.mint
    ensures Supply(l[id := acc], mint)
            == if acc.mint != mint then Supply(l, mint)
               else Supply(l, mint) - (if id in l then l[id].amount else 0) + acc.amount
  {
    var before, after := Balances(l, mint), Balances(l[id := acc], mint);
    if acc.mint == mint {
      assert after == before[id := acc.amount];
      MapSumUpdate(before, id, acc.amount);
    } else {
      assert after == before;
    }
  }

  lemma SupplyOfRemoval(l: Ledger, id: Address, mint: Address)
    requires id in l
    ensures Supply(l - {id}, mint) == Supply(l, mint) - (if l[id].mint == mint then l[id].amount else 0)
  {
    var before, after := Balances(l, mint), Balances(l - {id}, mint);
    if l[id].mint == mint {
      assert after == before - {id};
      MapSumRemove(before, id);
    } else {
      assert after == before;
    }
  }

  /** A successful transfer moves tokens of one mint and creates or destroys none of any. */
  lemma TransferConserves(l: Ledger, from: Address, to: Address, authority: Address, amount: nat, mint: Address)
    requires Transfer(l, from, to, authority, amount).Success?
    ensures Supply(Transfer(l, from, to, authority, amount).value, mint) == Supply(l, mint)
  {
    var r := Transfer(l, from, to, authority, amount).value;
    if from != to {
      SupplyOfUpdate(l, from, r[from], mint);
      SupplyOfUpdate(l[from := r[from]], to, r[to], mint);
      assert r == l[from := r[from]][to := r[to]];
    }
  }

  /** Accounts persist and keep their owner and mint. */
  ghost predicate Extends(l: Ledger, l': Ledger) {
    forall a <- l :: a in l' && l'[a].owner == l[a].owner && l'[a].mint == l[a].mint
  }

  /** What a successful transfer does to each account. */
  lemma {:induction false} TransferEffect(l: Ledger, from: Address, to: Address, authority: Address, amount: nat)
    requires Transfer(l, from, to, authority, amount).Success?
    ensures var r := Transfer(l, from, to, authority, amount).value;
            && r.Keys == l.Keys && from in l && to in l && l[from].mint == l[to].mint && l[from].amount >= amount
            && (forall b <- l :: b != from && b != to ==> r[b] == l[b])
            && (from == to ==> r == l)
            && (from != to ==>
                  && r[to] == l[to].(amount := l[to].amount + amount)
                  && r[from].owner == l[from].owner && r[from].mint == l[from].mint
                  && r[from].amount == l[from].amount - amount
                  && (l[from].delegate != Some(authority) ==> r[from].delegate == l[from].delegate)
                  && (l[from].delegate == Some(authority) ==>
                        && r[from].delegated == l[from].delegated - amount
                        && r[from].delegate == if l[from].delegated == amount then None else Some(authority)))
  {
  }

  /** The accounts are the same ones, and no mint's supply changed. */
  ghost predicate Moves(l: Ledger, l': Ledger) {
    && l'.Keys == l.Keys && Extends(l, l')
    && forall m :: Supply(l', m) == Supply(l, m)
  }

  lemma TransferMoves(l: Ledger, from: Address, to: Address, authority: Address, amount: nat)
    requires Transfer(l, from, to, authority, amount).Success?
    ensures Moves(l, Transfer(l, from, to, authority, amount).value)
  {
    var l' := Transfer(l, from, to, authority, amount).value;
    forall m ensures Supply(l', m) == Supply(l, m) {
      TransferConserves(l, from, to, authority, amount, m);
    }
  }

  /** Rewriting only the delegation of an account. */
  lemma DelegationMoves(l: Ledger, a: Address, acc: Account)
    requires a in l && acc.owner == l[a].owner && acc.mint == l[a].mint && acc.amount == l[a].amount
    ensures Moves(l, l[a := acc])
  {
    forall m ensures Supply(l[a := acc], m) == Supply(l, m) {
      SupplyOfUpdate(l, a, acc, m);
    }
  }

  lemma MovesTrans(l: Ledger, l': Ledger, l'': Ledger)
    requires Moves(l, l') && Moves(l', l'')
    ensures Moves(l, l'')
  {
  }

  /** When the supply is at most one, whoever holds a token holds the only one. */
  lemma OnlyHolder(l: Ledger, mint: Address, a: Address)
    requires Supply(l, mint) <= 1 && a in l && l[a].mint == mint && l[a].amount >= 1
    ensures l[a].amount == 1
    ensures forall b <- l :: b != a && l[b].mint == mint ==> l[b].amount == 0
  {
    var m := Balances(l, mint);
    MapSumBound(m, a);
    forall b <- l | b != a && l[b].mint == mint ensures l[b].amount == 0 {
      MapSumTwo(m, a, b);
    }
  }

  /** No account holds more than the supply. */
  lemma WithinSupply(l: Ledger, a: Address)
    requires a in l
    ensures l[a].amount <= Supply(l, l[a].mint)
  {
    MapSumBound(Balances(l, l[a].mint), a);
  }
}
