/**
 When the other steps succeed, what they store, and which error they give, with every limit as
 a number.
*/
module ThroneExact {
  import opened Bytes
  import opened Token
  import opened Throne
  import opened ThroneSafety
  import opened Wrappers

  // ---------------------------------------------------------------- binding

  /**
   A bind fails exactly without the oracle's signature or when it would change a bound mint.
   It fills in a new pet, keeps an old one, sets the launch's slot, and touches nothing else.
  */
  lemma {:induction false} BindExact(s: State, signer: Address, kolOwner: Address, pumpMint: Address, kolName: Bytes32)
    requires BindingOk(s)
    ensures var id := PetPda(kolOwner, kolName);
            var r := DoBindLaunch(s, signer, kolOwner, pumpMint, kolName);
            && (r.Success? <==>
                  signer.Key? && signer == s.oracle && (id in s.launches ==> s.launches[id].pumpMint == pumpMint))
            && (r.Success? ==>
                  && r.value.pets == s.pets[id := Pet(kolOwner, kolName, FirstBound(s, id, kolOwner))]
                  && r.value.launches == s.launches[id := Launch(id, pumpMint, s.slot)]
                  && r.value.log == s.log + [LaunchBound(id, kolOwner, pumpMint, s.slot)]
                  && r.value == s.(pets := r.value.pets, launches := r.value.launches, log := r.value.log))
            && (r.Failure? ==>
                  r.error == if !signer.Key? then MissingSignature
                             else if signer != s.oracle then OracleMismatch
                             else MintMismatch)
  {
    if DoBindLaunch(s, signer, kolOwner, pumpMint, kolName).Success? {
      BindShape(s, signer, kolOwner, pumpMint, kolName);
    }
  }

  // ---------------------------------------------------------------- minting

  /** The accounts that a mint needs: a bound pet without a king, and a fresh mint. */
  ghost predicate MintAccounts(s: State, signer: Address, pet: Address, nftMint: Address) {
    && signer.Key? && signer == s.oracle
    && pet in s.launches && pet !in s.kings
    && nftMint.Key? && nftMint != SYSTEM_PROGRAM && nftMint !in s.mints && nftMint !in s.ledger
  }

  lemma MintAccountsExact(s: State, signer: Address, pet: Address, nftMint: Address)
    requires BindingOk(s)
    ensures CheckMintAccounts(s, signer, pet, nftMint).Success? <==> MintAccounts(s, signer, pet, nftMint)
    ensures CheckMintAccounts(s, signer, pet, nftMint).Failure? ==>
              CheckMintAccounts(s, signer, pet, nftMint).error ==
                if !signer.Key? then MissingSignature
                else if signer != s.oracle then OracleMismatch
                else if pet !in s.launches then AccountNotInitialized
                else if pet in s.kings then Error.AccountInUse
                else if !nftMint.Key? then MissingSignature
                else Error.AccountInUse
  {
  }

  lemma EscrowOutcome(s: State, pet: Address, nftMint: Address, name: Octets, symbol: Octets, uri: Octets)
    requires pet in s.launches
    ensures var r := MintToEscrow(s, pet, nftMint, name, symbol, uri);
            && (r.Success? <==>
                  && EscrowVault(pet, nftMint) !in s.ledger
                  && |name| <= 32 && |symbol| <= 10 && |uri| <= 200
                  && s.launches[pet].pumpMint != SYSTEM_PROGRAM)
            && (r.Failure? ==>
                  r.error == if EscrowVault(pet, nftMint) in s.ledger then TokenProgram(AddressTaken)
                             else if |name| > 32 then NameTooLong
                             else if |symbol| > 10 then SymbolTooLong
                             else if |uri| > 200 then UriTooLong
                             else BondingCurveNotInitialized)
  {
  }

  /**
   A king's NFT is minted exactly when the oracle signs, the pet is bound to a mint and has no
   king, the NFT's mint is a fresh key that signs, its escrow address is free, and name, symbol
   and URI have at most 32, 10 and 200 octets.
  */
  lemma {:induction false} MintExact(s: State, signer: Address, pet: Address, nftMint: Address,
                                     name: Octets, symbol: Octets, uri: Octets)
    requires BindingOk(s)
    ensures var r := DoMintKolNft(s, signer, pet, nftMint, name, symbol, uri);
            && (r.Success? <==>
                  && MintAccounts(s, signer, pet, nftMint) && EscrowVault(pet, nftMint) !in s.ledger
                  && |name| <= 32 && |symbol| <= 10 && |uri| <= 200
                  && s.launches[pet].pumpMint != SYSTEM_PROGRAM)
            && (r.Success? ==> Minted(s, pet, nftMint, r.value))
            && (r.Failure? && MintAccounts(s, signer, pet, nftMint) ==>
                  r.error == if EscrowVault(pet, nftMint) in s.ledger then TokenProgram(AddressTaken)
                             else if |name| > 32 then NameTooLong
                             else if |symbol| > 10 then SymbolTooLong
                             else if |uri| > 200 then UriTooLong
                             else BondingCurveNotInitialized)
  {
    MintAccountsExact(s, signer, pet, nftMint);
    if MintAccounts(s, signer, pet, nftMint) {
      EscrowOutcome(s, pet, nftMint, name, symbol, uri);
    }
    if DoMintKolNft(s, signer, pet, nftMint, name, symbol, uri).Success? {
      MintShape(s, signer, pet, nftMint, name, symbol, uri);
    }
  }

  // ---------------------------------------------------------------- slots

  /** A first capture sets the deadline 1,512,000 slots ahead, or fails when that exceeds a u64. */
  lemma {:induction false} DeadlineExact(now: nat)
    ensures Deadline(now).Success? <==> now <= 18_446_744_073_708_039_615
    ensures Deadline(now).Success? ==> Deadline(now).value == now + 1_512_000
    ensures Deadline(now).Failure? ==> Deadline(now).error == SettlementNotReady
  {
  }

  /** The helpers: the first saturates where the handler fails. */
  lemma {:induction false} SlotHelpersExact(first: nat, now: nat, settlesAt: nat)
    requires first <= U64_MAX
    ensures SettlesAt(first) ==
            if first <= 18_446_744_073_708_039_615 then first + 1_512_000 else 18_446_744_073_709_551_615
    ensures IsWindowOver(now, settlesAt) <==> settlesAt > 0 && now >= settlesAt
    ensures Deadline(first).Success? ==> Deadline(first).value == SettlesAt(first)
  {
  }

  // ---------------------------------------------------------------- the rest of the chain

  /** A failed step changes nothing; a successful one has exactly its own result. */
  lemma Rollback(s: State, step: Step)
    ensures TryStep(s, step).Failure? ==> Next(s, step) == s
    ensures TryStep(s, step).Success? ==> TryStep(s, step) == Success(Next(s, step))
  {
  }

  /** What the chain asks of a step that is not an instruction of this program. */
  ghost predicate Allowed(s: State, step: Step) {
    match step
    case AdvanceSlots(n) => s.slot + n <= 18_446_744_073_709_551_615
    case CreateMint(m, _) => m.Key? && m != SYSTEM_PROGRAM && m !in s.mints && m !in s.ledger
    case OpenAccount(id, owner, m) =>
      && (id.Key? || id == Ata(owner, m)) && id != SYSTEM_PROGRAM && id !in s.mints && id !in s.ledger
      && m in s.mints
    case MintTokens(signer, to, n) =>
      && signer.Key? && to in s.ledger && s.ledger[to].mint in s.mints
      && s.mints[s.ledger[to].mint].authority == signer
      && s.mints[s.ledger[to].mint].supply + n <= U64_MAX && s.ledger[to].amount + n <= U64_MAX
    case TransferTokens(signer, from, to, n) => signer.Key? && CanTransfer(s.ledger, from, to, signer, n)
    case ApproveDelegate(signer, a, _, _) => signer.Key? && a in s.ledger && s.ledger[a].owner == signer
    case RevokeDelegate(signer, a) =>
      && signer.Key? && a in s.ledger
      && (s.ledger[a].owner == signer || (s.rule.OwnerOrDelegate? && s.ledger[a].delegate == Some(signer)))
    case BurnTokens(signer, a, n) =>
      && signer.Key? && a in s.ledger && s.ledger[a].mint in s.mints && s.mints[s.ledger[a].mint].supply >= n
      && s.ledger[a].amount >= n && CanDebit(s.ledger[a], signer, n)
    case CloseAccount(signer, a) =>
      signer.Key? && a in s.ledger && s.ledger[a].amount == 0 && s.ledger[a].owner == signer
    case SetAccountOwner(signer, a, _) => signer.Key? && a in s.ledger && s.ledger[a].owner == signer
    case SetMintAuthority(signer, m, _) => signer.Key? && m in s.mints && s.mints[m].authority == signer
    case _ => false
  }

  /** And what the step then does. */
  ghost predicate Did(s: State, step: Step, t: State) {
    match step
    case AdvanceSlots(n) => t == s.(slot := s.slot + n)
    case CreateMint(m, authority) => t == s.(mints := s.mints[m := Mint(authority, 0)])
    case OpenAccount(id, owner, m) => t == s.(ledger := s.ledger[id := Account(owner, m, 0, None, 0)])
    case MintTokens(_, to, n) =>
      && to in s.ledger && s.ledger[to].mint in s.mints
      && var m := s.ledger[to].mint;
      t == s.(ledger := s.ledger[to := s.ledger[to].(amount := s.ledger[to].amount + n)],
              mints := s.mints[m := s.mints[m].(supply := s.mints[m].supply + n)])
    case TransferTokens(signer, from, to, n) =>
      && from in s.ledger && to in s.ledger && s.ledger[from].amount >= n
      && t == s.(ledger := t.ledger)
      && if from == to then t.ledger == s.ledger
         else t.ledger == s.ledger[from := Debited(s.ledger[from], signer, n)]
                                  [to := s.ledger[to].(amount := s.ledger[to].amount + n)]
    case ApproveDelegate(_, a, d, n) =>
      a in s.ledger && t == s.(ledger := s.ledger[a := s.ledger[a].(delegate := Some(d), delegated := n)])
    case RevokeDelegate(_, a) =>
      a in s.ledger && t == s.(ledger := s.ledger[a := s.ledger[a].(delegate := None, delegated := 0)])
    case BurnTokens(signer, a, n) =>
      && a in s.ledger && s.ledger[a].mint in s.mints
      && s.ledger[a].amount >= n && s.mints[s.ledger[a].mint].supply >= n
      && var m := s.ledger[a].mint;
      t == s.(ledger := s.ledger[a := Debited(s.ledger[a], signer, n)],
              mints := s.mints[m := s.mints[m].(supply := s.mints[m].supply - n)])
    case CloseAccount(_, a) => t == s.(ledger := s.ledger - {a})
    case SetAccountOwner(_, a, o) =>
      a in s.ledger && t == s.(ledger := s.ledger[a := Account(o, s.ledger[a].mint, s.ledger[a].amount, None, 0)])
    case SetMintAuthority(_, m, authority) =>
      m in s.mints && t == s.(mints := s.mints[m := Mint(authority, s.mints[m].supply)])
    case _ => false
  }

  /** The account after `n` tokens were taken out of it: a delegate's allowance shrinks, and ends at zero. */
  function Debited(acc: Account, authority: Address, n: nat): Account
    requires acc.amount >= n
  {
    if acc.delegate != Some(authority) || acc.delegated < n then acc.(amount := acc.amount - n)
    else
      var left := acc.delegated - n;
      acc.(amount := acc.amount - n, delegated := left, delegate := if left == 0 then None else acc.delegate)
  }

  lemma DebitIs(acc: Account, authority: Address, n: nat)
    requires acc.amount >= n && Debit(acc, authority, n).Success?
    ensures Debit(acc, authority, n).value == Debited(acc, authority, n)
  {
  }

  lemma TransferDid(s: State, step: Step, t: State)
    requires step.TransferTokens? && TryStep(s, step) == Success(t)
    ensures Did(s, step, t)
  {
    DebitIs(s.ledger[step.from], step.signer, step.amount);
  }

  lemma BurnDid(s: State, step: Step, t: State)
    requires step.BurnTokens? && TryStep(s, step) == Success(t)
    ensures Did(s, step, t)
  {
    DebitIs(s.ledger[step.account], step.signer, step.amount);
  }

  lemma WalletDid(s: State, step: Step, t: State)
    requires IsWalletStep(step) && TryStep(s, step) == Success(t)
    ensures Did(s, step, t)
  {
    if step.TransferTokens? {
      TransferDid(s, step, t);
    } else if step.BurnTokens? {
      BurnDid(s, step, t);
    }
  }

  lemma ChainDid(s: State, step: Step, t: State)
    requires !IsProgramStep(step) && !IsWalletStep(step) && TryStep(s, step) == Success(t)
    ensures Did(s, step, t)
  {
  }

  lemma WalletAllowed(s: State, step: Step)
    requires IsWalletStep(step)
    ensures TryStep(s, step).Success? <==> Allowed(s, step)
  {
    if step.TransferTokens? {
      TransferExact(s.ledger, step.from, step.to, step.signer, step.amount);
    }
  }

  lemma ChainAllowed(s: State, step: Step)
    requires !IsProgramStep(step) && !IsWalletStep(step)
    ensures TryStep(s, step).Success? <==> Allowed(s, step)
  {
  }

  /** Wallets and the clock are as free as the token program lets them be, and no freer. */
  lemma {:induction false} EnvironmentExact(s: State, step: Step)
    requires !IsProgramStep(step)
    ensures TryStep(s, step).Success? <==> Allowed(s, step)
    ensures TryStep(s, step).Success? ==> Did(s, step, TryStep(s, step).value)
  {
    if IsWalletStep(step) {
      WalletAllowed(s, step);
    } else {
      ChainAllowed(s, step);
    }
    if TryStep(s, step).Success? {
      if IsWalletStep(step) {
        WalletDid(s, step, TryStep(s, step).value);
      } else {
        ChainDid(s, step, TryStep(s, step).value);
      }
    }
  }

  /** `is_unclaimed` asks for both signs, which agree in every state that a run reaches. */
  lemma UnclaimedExact(s: State, p: Address)
    requires p in s.kings
    ensures s.kings[p].IsUnclaimed() <==> s.kings[p].currentChampion == Key(0) && s.kings[p].takeOvers == 0
    ensures NftOk(s, p) ==> (s.kings[p].IsUnclaimed() <==> s.kings[p].currentChampion == Key(0))
  {
  }
}
