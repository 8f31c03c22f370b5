/**
 Who holds the king NFT, when a capture or a settlement succeeds, and what other pets notice.
*/
module ThroneCustody {
  import opened Bytes
  import opened Token
  import opened Throne
  import opened ThroneSafety
  import opened ThroneChronicle
  import opened Wrappers

  // ---------------------------------------------------------------- supply

  /** In every reachable state a king's NFT mint has at most one token, wherever it is. */
  lemma {:induction false} NftSupplyAtMostOne(s: State, steps: seq<Step>, p: Address)
    requires Safe(s) && p in Run(s, steps).kings
    ensures Supply(Run(s, steps).ledger, Run(s, steps).kings[p].nftMint) <= 1
  {
    SafeRun(s, steps);
    assert NftOk(Run(s, steps), p);
  }

  /** The king's mint still has its one token. */
  ghost predicate Whole(s: State, p: Address) {
    p in s.kings ==> s.kings[p].nftMint in s.mints && s.mints[s.kings[p].nftMint].supply == 1
  }

  /** Somebody succeeds in burning the NFT of `p`. */
  ghost predicate BurnsNft(s: State, step: Step, p: Address) {
    && p in s.kings && step.BurnTokens? && step.amount > 0 && TryStep(s, step).Success?
    && step.account in s.ledger && s.ledger[step.account].mint == s.kings[p].nftMint
  }

  ghost predicate Unburnt(s: State, steps: seq<Step>, p: Address) {
    forall i :: 0 <= i < |steps| ==> !BurnsNft(Run(s, steps[..i]), steps[i], p)
  }

  /** Only burning changes supplies. */
  lemma WalletSupplies(s: State, step: Step, t: State)
    requires IsWalletStep(step) && TryStep(s, step) == Success(t)
    ensures (step.BurnTokens? && step.amount > 0) || t.mints == s.mints
  {
  }

  lemma WholeAfterMint(s: State, pet: Address, nftMint: Address, t: State, p: Address)
    requires Whole(s, p) && Minted(s, pet, nftMint, t)
    ensures Whole(t, p)
  {
  }

  lemma WholeAfterWallet(s: State, src: Address, t: State, p: Address)
    requires Whole(s, p) && WalletEffect(s, src, t)
    requires t.mints == s.mints || (p in s.kings ==> s.ledger[src].mint != s.kings[p].nftMint)
    ensures Whole(t, p)
  {
  }

  lemma WholeAfterChain(s: State, t: State, p: Address)
    requires Whole(s, p) && ChainEffect(s, t) && (p in s.kings ==> NftOk(s, p))
    ensures Whole(t, p)
  {
  }

  /** The step leaves all supplies alone, or acts on another mint than that of `p`. */
  ghost predicate SparesNft(s: State, step: Step, t: State, p: Address) {
    IsWalletStep(step) ==>
      || t.mints == s.mints
      || (ActsOn(step) in s.ledger && p in s.kings && s.ledger[ActsOn(step)].mint != s.kings[p].nftMint)
      || p !in s.kings
  }

  lemma WholeAfter(s: State, step: Step, t: State, p: Address)
    requires Whole(s, p) && Effect(s, step, t) && SparesNft(s, step, t, p) && (p in s.kings ==> NftOk(s, p))
    ensures Whole(t, p)
  {
    if step.MintKolNft? {
      WholeAfterMint(s, step.pet, step.nftMint, t, p);
    } else if IsWalletStep(step) {
      WholeAfterWallet(s, ActsOn(step), t, p);
    } else if !IsProgramStep(step) {
      WholeAfterChain(s, t, p);
    }
  }

  /**
   NFT supply conservation: in every run, with wallets free to transfer, approve, revoke, hand
   over and close accounts, the balances of each king's NFT mint sum to one until somebody
   burns that token; what happens to other mints does not matter.
  */
  lemma {:induction false} NftSupplyIsOne(s: State, steps: seq<Step>, p: Address)
    requires Safe(s) && Whole(s, p) && Unburnt(s, steps, p)
    ensures var t := Run(s, steps);
            Safe(t) && Whole(t, p) && (p in t.kings ==> Supply(t.ledger, t.kings[p].nftMint) == 1)
  {
    if steps != [] {
      var n := |steps| - 1;
      var u := Run(s, steps[..n]);
      forall i | 0 <= i < n ensures !BurnsNft(Run(s, steps[..n][..i]), steps[..n][i], p) {
        assert steps[..n][..i] == steps[..i];
      }
      NftSupplyIsOne(s, steps[..n], p);
      SafeStep(u, steps[n]);
      WholeNext(u, steps[n], p);
    }
  }

  lemma WholeNext(s: State, step: Step, p: Address)
    requires Safe(s) && Whole(s, p) && !BurnsNft(s, step, p)
    ensures Whole(Next(s, step), p)
  {
    if TryStep(s, step).Success? {
      var t := TryStep(s, step).value;
      StepEffect(s, step, t);
      if IsWalletStep(step) {
        WalletSupplies(s, step, t);
      }
      assert p in s.kings ==> NftOk(s, p);
      WholeAfter(s, step, t, p);
    }
  }

  /** Different pets have different NFT mints. */
  lemma {:induction false} NftMintsDiffer(s: State, p: Address, q: Address)
    requires p in s.kings && q in s.kings && p != q && NftOk(s, p) && NftOk(s, q)
    ensures s.kings[p].nftMint != s.kings[q].nftMint
  {
  }

  // ---------------------------------------------------------------- isolation

  /** The pet's king, memecoin, NFT mint and every account of that mint are as they were. */
  ghost predicate Untouched(s: State, t: State, p: Address)
    requires p in s.kings
  {
    var m := s.kings[p].nftMint;
    && p in t.kings && t.kings[p] == s.kings[p]
    && (p in s.launches ==> p in t.launches && t.launches[p].pumpMint == s.launches[p].pumpMint)
    && (m in s.mints ==> m in t.mints && t.mints[m] == s.mints[m])
    && forall a <- s.ledger :: s.ledger[a].mint == m ==> a in t.ledger && t.ledger[a] == s.ledger[a]
  }

  /** A capture or settlement of the pet, or a wallet operation on an account of its NFT mint. */
  ghost predicate AboutPet(s: State, step: Step, p: Address)
    requires p in s.kings
  {
    if step.TakeThrone? then step.accounts.pet == p
    else if step.SettleThrone? then step.pet == p
    else IsWalletStep(step) && ActsOn(step) in s.ledger && s.ledger[ActsOn(step)].mint == s.kings[p].nftMint
  }

  lemma CaptureElsewhere(s: State, a: TakeAccounts, t: State, p: Address)
    requires p in s.kings && NftOk(s, p) && Captured(s, a, t) && NftOk(s, a.pet) && a.pet != p
    ensures Untouched(s, t, p)
  {
    NftMintsDiffer(s, p, a.pet);
  }

  lemma SettlementElsewhere(s: State, q: Address, ata: Address, t: State, p: Address)
    requires p in s.kings && NftOk(s, p) && Settled(s, q, ata, t) && NftOk(s, q) && q != p
    ensures Untouched(s, t, p)
  {
    NftMintsDiffer(s, p, q);
  }

  lemma MintElsewhere(s: State, pet: Address, nftMint: Address, t: State, p: Address)
    requires p in s.kings && Minted(s, pet, nftMint, t)
    ensures Untouched(s, t, p)
  {
  }

  lemma BindElsewhere(s: State, kolOwner: Address, pumpMint: Address, kolName: Bytes32, t: State, p: Address)
    requires p in s.kings && Bound(s, kolOwner, pumpMint, kolName, t)
    ensures Untouched(s, t, p)
  {
  }

  lemma WalletElsewhere(s: State, src: Address, t: State, p: Address)
    requires p in s.kings && NftOk(s, p) && WalletEffect(s, src, t) && s.ledger[src].mint != s.kings[p].nftMint
    ensures Untouched(s, t, p)
  {
  }

  lemma ChainElsewhere(s: State, t: State, p: Address)
    requires p in s.kings && NftOk(s, p) && ChainEffect(s, t)
    ensures Untouched(s, t, p)
  {
  }

  lemma Elsewhere(s: State, step: Step, t: State, p: Address)
    requires (forall q <- s.kings :: NftOk(s, q)) && p in s.kings && Effect(s, step, t) && !AboutPet(s, step, p)
    ensures Untouched(s, t, p)
  {
    if step.TakeThrone? {
      CaptureElsewhere(s, step.accounts, t, p);
    } else if step.SettleThrone? {
      SettlementElsewhere(s, step.pet, step.championAta, t, p);
    } else if step.MintKolNft? {
      MintElsewhere(s, step.pet, step.nftMint, t, p);
    } else if step.BindLaunch? {
      BindElsewhere(s, step.kolOwner, step.pumpMint, step.kolName, t, p);
    } else if IsWalletStep(step) {
      WalletElsewhere(s, ActsOn(step), t, p);
    } else {
      ChainElsewhere(s, t, p);
    }
  }

  /**
   Steps on one pet never disturb another: every step by anybody leaves a pet untouched unless
   it captures or settles that very pet or is a wallet operation on an account of its NFT mint.
  */
  lemma {:induction false} Isolation(s: State, step: Step, p: Address)
    requires Safe(s) && p in s.kings && !AboutPet(s, step, p)
    ensures Untouched(s, Next(s, step), p)
  {
    if TryStep(s, step).Success? {
      StepEffect(s, step, TryStep(s, step).value);
      Elsewhere(s, step, TryStep(s, step).value, p);
    }
  }

  // ---------------------------------------------------------------- custody

  /** Account `a` holds the champion's NFT, delegated to the king until settlement. */
  ghost predicate HeldBy(s: State, p: Address, a: Address)
    requires p in s.kings
  {
    var k := s.kings[p];
    && a in s.ledger
    && s.ledger[a].owner == k.currentChampion && s.ledger[a].mint == k.nftMint && s.ledger[a].amount >= 1
    && (!k.settled ==> s.ledger[a].delegate == Some(KingPda(p)) && s.ledger[a].delegated == 1)
  }

  /** A throne that is claimed and not yet settled has its NFT in the champion's hands. */
  ghost predicate Custody(s: State, p: Address) {
    p in s.kings ==> s.kings[p].IsUnclaimed() || s.kings[p].settled || exists a :: HeldBy(s, p, a)
  }

  /** The owner of account `a` itself succeeds with an operation on it. */
  ghost predicate OwnerActs(s: State, step: Step, a: Address) {
    && IsWalletStep(step) && ActsOn(step) == a && TryStep(s, step).Success?
    && a in s.ledger && step.signer == s.ledger[a].owner
  }

  /** Nobody else can operate on an account without a delegate that can sign. */
  lemma OnlyOwnerActs(s: State, step: Step, a: Address)
    requires IsWalletStep(step) && TryStep(s, step).Success? && ActsOn(step) == a && a in s.ledger
    requires s.ledger[a].delegate == None || s.ledger[a].delegate.value.KingPda?
    ensures OwnerActs(s, step, a)
  {
  }

  /** The owner of the account that holds the NFT of `p` operates on it before `p` is settled. */
  ghost predicate TouchesNft(s: State, step: Step, p: Address) {
    && p in s.kings && !s.kings[p].settled
    && IsWalletStep(step) && OwnerActs(s, step, ActsOn(step))
    && s.ledger[ActsOn(step)].mint == s.kings[p].nftMint && s.ledger[ActsOn(step)].amount >= 1
  }

  ghost predicate Quiet(s: State, steps: seq<Step>, p: Address) {
    forall i :: 0 <= i < |steps| ==> !TouchesNft(Run(s, steps[..i]), steps[i], p)
  }

  lemma HeldUntouched(s: State, t: State, p: Address, held: Address)
    requires p in s.kings && HeldBy(s, p, held) && Untouched(s, t, p)
    ensures HeldBy(t, p, held)
  {
  }

  lemma HeldAfterTake(s: State, a: TakeAccounts, t: State)
    requires Captured(s, a, t)
    ensures a.pet in t.kings && HeldBy(t, a.pet, a.nftAta)
  {
  }

  lemma HeldAfterWallet(s: State, src: Address, t: State, p: Address, held: Address)
    requires WalletEffect(s, src, t) && src != held && p in s.kings && HeldBy(s, p, held)
    ensures HeldBy(t, p, held)
  {
  }

  lemma UnclaimedAfter(s: State, step: Step, t: State, p: Address)
    requires Effect(s, step, t) && (p in s.kings ==> s.kings[p].IsUnclaimed())
    requires !(step.TakeThrone? && step.accounts.pet == p)
    ensures p in t.kings ==> t.kings[p].IsUnclaimed()
  {
    KingAfter(s, step, t, p);
  }

  lemma SettledAfter(s: State, step: Step, t: State, p: Address)
    requires Effect(s, step, t) && p in s.kings && s.kings[p].settled
    ensures p in t.kings && t.kings[p].settled
  {
    KingAfter(s, step, t, p);
    SettledKept(s, t, p);
  }

  lemma CustodyHeld(s: State, step: Step, t: State, p: Address, held: Address)
    requires (forall q <- s.kings :: NftOk(s, q)) && Effect(s, step, t) && p in s.kings && HeldBy(s, p, held)
    requires IsWalletStep(step) ==> ActsOn(step) != held
    requires !s.kings[p].settled && !(step.TakeThrone? && step.accounts.pet == p)
    ensures p in t.kings && (t.kings[p].settled || HeldBy(t, p, held))
  {
    if !AboutPet(s, step, p) {
      Elsewhere(s, step, t, p);
      HeldUntouched(s, t, p, held);
    } else if IsWalletStep(step) {
      HeldAfterWallet(s, ActsOn(step), t, p, held);
    }
  }

  /** The step does not act on an account that holds the NFT of an unsettled throne. */
  ghost predicate SparesHolder(s: State, step: Step, p: Address) {
    p in s.kings && !s.kings[p].settled && IsWalletStep(step) ==> !HeldBy(s, p, ActsOn(step))
  }

  lemma CustodyAfter(s: State, step: Step, t: State, p: Address)
    requires (forall q <- s.kings :: NftOk(s, q)) && Custody(s, p) && Effect(s, step, t) && SparesHolder(s, step, p)
    ensures Custody(t, p)
  {
    if step.TakeThrone? && step.accounts.pet == p {
      HeldAfterTake(s, step.accounts, t);
    } else if p !in s.kings || s.kings[p].IsUnclaimed() {
      UnclaimedAfter(s, step, t, p);
    } else if s.kings[p].settled {
      SettledAfter(s, step, t, p);
    } else {
      var held :| HeldBy(s, p, held);
      CustodyHeld(s, step, t, p, held);
    }
  }

  /** Only the champion itself can succeed with an operation on the account that holds the NFT. */
  lemma OnlyChampionTouches(s: State, step: Step, p: Address)
    requires TryStep(s, step).Success? && !TouchesNft(s, step, p)
    ensures SparesHolder(s, step, p)
  {
    if p in s.kings && !s.kings[p].settled && IsWalletStep(step) && HeldBy(s, p, ActsOn(step)) {
      OnlyOwnerActs(s, step, ActsOn(step));
    }
  }

  lemma CustodyStep(s: State, step: Step, p: Address)
    requires Safe(s) && Custody(s, p) && !TouchesNft(s, step, p)
    ensures Custody(Next(s, step), p)
  {
    if TryStep(s, step).Success? {
      StepEffect(s, step, TryStep(s, step).value);
      OnlyChampionTouches(s, step, p);
      CustodyAfter(s, step, TryStep(s, step).value, p);
    }
  }

  /**
   Custody of each pet, in every run in which the champion does not itself operate on the
   account that holds that pet's NFT before that pet is settled, whatever anybody else does or
   tries, there or elsewhere: while claimed and unsettled, the NFT sits in an account of the
   current champion, delegated to that king for one.
  */
  lemma {:induction false} CustodyRun(s: State, steps: seq<Step>, p: Address)
    requires Safe(s) && Custody(s, p) && Quiet(s, steps, p)
    ensures Safe(Run(s, steps)) && Custody(Run(s, steps), p)
  {
    if steps != [] {
      var n := |steps| - 1;
      forall i | 0 <= i < n ensures !TouchesNft(Run(s, steps[..n][..i]), steps[..n][i], p) {
        assert steps[..n][..i] == steps[..i];
      }
      CustodyRun(s, steps[..n], p);
      SafeStep(Run(s, steps[..n]), steps[n]);
      CustodyStep(Run(s, steps[..n]), steps[n], p);
    }
  }

  /** The account that holds the NFT is the only one: all others of the mint are empty. */
  lemma ExactlyOneHolder(s: State, p: Address, a: Address)
    requires Safe(s) && p in s.kings
    requires if s.kings[p].IsUnclaimed() then a == s.kings[p].nftEscrowVault else HeldBy(s, p, a)
    ensures a in s.ledger && s.ledger[a].mint == s.kings[p].nftMint && s.ledger[a].amount == 1
    ensures forall b <- s.ledger :: b != a && s.ledger[b].mint == s.kings[p].nftMint ==> s.ledger[b].amount == 0
  {
    assert NftOk(s, p);
    OnlyHolder(s.ledger, s.kings[p].nftMint, a);
  }

  // ---------------------------------------------------------------- enabledness

  /**
   The accounts a challenger must pass; any existing token account may stand in for the
   previous champion's.
  */
  ghost predicate RightAccounts(s: State, a: TakeAccounts) {
    && a.challenger.Key? && a.challenger != SYSTEM_PROGRAM
    && a.pet in s.kings && a.pet in s.launches
    && a.pumpMint == s.launches[a.pet].pumpMint && a.pumpMint in s.mints
    && a.pumpAta in s.ledger && s.ledger[a.pumpAta].owner == a.challenger && s.ledger[a.pumpAta].mint == a.pumpMint
    && a.nftMint == s.kings[a.pet].nftMint
    && a.escrowVault == s.kings[a.pet].nftEscrowVault
    && a.nftAta in s.ledger && s.ledger[a.nftAta].owner == a.challenger && s.ledger[a.nftAta].mint == a.nftMint
    && a.prevAta in s.ledger
  }

  lemma RightAccountsPass(s: State, a: TakeAccounts)
    requires Safe(s) && RightAccounts(s, a)
    ensures CheckTakeAccounts(s, a).Success?
  {
    assert NftOk(s, a.pet);
  }

  /** Account `a` is the champion's, holds the NFT, and is still delegated to the king. */
  ghost predicate Recapturable(s: State, p: Address, a: Address)
    requires p in s.kings && a in s.ledger
  {
    var k, acc := s.kings[p], s.ledger[a];
    && acc.owner == k.currentChampion && acc.mint == k.nftMint && acc.amount >= 1
    && acc.delegate == Some(KingPda(p)) && acc.delegated >= 1
  }

  /** The guards that the king's record and the challenger's balance must pass. */
  ghost predicate WindowOpen(s: State, a: TakeAccounts)
    requires a.pet in s.kings && a.pumpAta in s.ledger
  {
    var k := s.kings[a.pet];
    && !k.settled
    && (k.settlesAtSlot == 0 || s.slot < k.settlesAtSlot)
    && s.ledger[a.pumpAta].amount > k.championBalance
    && (k.IsUnclaimed() ==> s.slot + 1_512_000 <= U64_MAX)
  }

  lemma MovableNeedsDelegation(s: State, a: TakeAccounts)
    requires RightAccounts(s, a) && NftOk(s, a.pet) && !s.kings[a.pet].IsUnclaimed()
    requires MoveNft(s, a, s.kings[a.pet]).Success?
    ensures Recapturable(s, a.pet, a.prevAta)
  {
  }

  /** `from` holds the only token of its mint, so crediting `to` cannot overflow. */
  ghost predicate OnlyToken(l: Ledger, from: Address, to: Address) {
    && from in l && to in l && l[from].mint == l[to].mint && l[from].amount == 1
    && (from != to ==> l[to].amount == 0)
  }

  lemma EscrowMovable(l: Ledger, from: Address, to: Address, owner: Address)
    requires OnlyToken(l, from, to) && l[from].owner == owner && l[from].delegate == None
    ensures Transfer(l, from, to, owner, 1).Success?
  {
  }

  lemma ChampionMovable(l: Ledger, from: Address, to: Address, king: Address)
    requires OnlyToken(l, from, to) && l[from].delegate == Some(king) && l[from].delegated >= 1
    ensures Transfer(l, from, to, king, 1).Success?
  {
  }

  lemma OnlyTokenOf(s: State, p: Address, from: Address, to: Address)
    requires LedgerOk(s) && p in s.kings && NftOk(s, p) && from in s.ledger && to in s.ledger
    requires s.ledger[from].mint == s.kings[p].nftMint == s.ledger[to].mint && s.ledger[from].amount >= 1
    ensures OnlyToken(s.ledger, from, to)
  {
    OnlyHolder(s.ledger, s.kings[p].nftMint, from);
  }

  lemma UnclaimedMovable(s: State, a: TakeAccounts)
    requires RightAccounts(s, a) && LedgerOk(s) && NftOk(s, a.pet) && s.kings[a.pet].IsUnclaimed()
    ensures MoveNft(s, a, s.kings[a.pet]).Success?
  {
    OnlyTokenOf(s, a.pet, a.escrowVault, a.nftAta);
    EscrowMovable(s.ledger, a.escrowVault, a.nftAta, EscrowPda(KingPda(a.pet)));
  }

  lemma RecapturableMovable(s: State, a: TakeAccounts)
    requires RightAccounts(s, a) && LedgerOk(s) && NftOk(s, a.pet) && !s.kings[a.pet].IsUnclaimed()
    requires Recapturable(s, a.pet, a.prevAta)
    ensures MoveNft(s, a, s.kings[a.pet]).Success?
  {
    OnlyTokenOf(s, a.pet, a.prevAta, a.nftAta);
    ChampionMovable(s.ledger, a.prevAta, a.nftAta, KingPda(a.pet));
  }

  /** The NFT can be moved exactly when the throne is unclaimed or the champion's account is still delegated. */
  lemma NftMovable(s: State, a: TakeAccounts)
    requires RightAccounts(s, a) && LedgerOk(s) && NftOk(s, a.pet)
    ensures MoveNft(s, a, s.kings[a.pet]).Success?
            <==> s.kings[a.pet].IsUnclaimed() || Recapturable(s, a.pet, a.prevAta)
  {
    if s.kings[a.pet].IsUnclaimed() {
      UnclaimedMovable(s, a);
    } else if MoveNft(s, a, s.kings[a.pet]).Success? {
      MovableNeedsDelegation(s, a);
    } else if Recapturable(s, a.pet, a.prevAta) {
      RecapturableMovable(s, a);
    }
  }

  lemma MovedKeepsOwner(s: State, a: TakeAccounts)
    requires a.prevAta in s.ledger && a.nftAta in s.ledger && a.pet in s.kings
    requires MoveNft(s, a, s.kings[a.pet]).Success?
    ensures var l := MoveNft(s, a, s.kings[a.pet]).value;
            a.nftAta in l && l[a.nftAta].owner == s.ledger[a.nftAta].owner
  {
  }

  /** Once the accounts have passed, the outcome depends on the guards and the move alone. */
  lemma CaptureOutcome(s: State, a: TakeAccounts)
    requires RightAccounts(s, a) && CheckTakeAccounts(s, a).Success?
    ensures DoTakeThrone(s, a).Success? <==> WindowOpen(s, a) && MoveNft(s, a, s.kings[a.pet]).Success?
  {
    if MoveNft(s, a, s.kings[a.pet]).Success? {
      MovedKeepsOwner(s, a);
    }
  }

  lemma PassedMeansRight(s: State, a: TakeAccounts)
    requires DoTakeThrone(s, a).Success?
    ensures RightAccounts(s, a)
  {
    TakePassed(s, a);
  }

  /**
   Exactly when a capture succeeds, in every state that any run reaches, with wallets free to
   move and revoke: the accounts are the challenger's own and the pet's, the throne is not
   settled, its window is open, the challenger's balance is strictly larger, a first deadline
   fits in a u64, and after the first capture the account passed for the previous champion is
   one from which the king may still take the NFT. The challenger may be the champion itself,
   even with the same token account.
  */
  lemma {:induction false} CaptureExact(s: State, a: TakeAccounts)
    requires Safe(s)
    ensures DoTakeThrone(s, a).Success? <==>
              && RightAccounts(s, a) && WindowOpen(s, a)
              && (s.kings[a.pet].IsUnclaimed() || Recapturable(s, a.pet, a.prevAta))
  {
    if DoTakeThrone(s, a).Success? {
      PassedMeansRight(s, a);
    }
    if RightAccounts(s, a) {
      assert NftOk(s, a.pet);
      RightAccountsPass(s, a);
      NftMovable(s, a);
      CaptureOutcome(s, a);
    }
  }

  /** Which error a recapture gives when the NFT cannot be moved. */
  function RecaptureError(s: State, a: TakeAccounts): Error
    requires a.pet in s.kings && a.prevAta in s.ledger
  {
    var k, prev := s.kings[a.pet], s.ledger[a.prevAta];
    if a.prevAta == a.escrowVault then MissingPrevChampionAta
    else if prev.owner != k.currentChampion then AtaOwnerMismatch
    else if prev.amount == 0 then MissingPrevChampionAta
    else if prev.mint != k.nftMint then TokenProgram(UnequalMints)
    else if prev.delegate != Some(KingPda(a.pet)) then TokenProgram(OwnerMismatch)
    else TokenProgram(InsufficientFunds)
  }

  lemma RecaptureFails(s: State, a: TakeAccounts)
    requires a.pet in s.kings && a.prevAta in s.ledger && a.nftAta in s.ledger
    requires !s.kings[a.pet].IsUnclaimed() && MoveNft(s, a, s.kings[a.pet]).Failure?
    requires s.ledger[a.nftAta].mint == s.kings[a.pet].nftMint && s.ledger[a.nftAta].amount <= 1
    requires s.kings[a.pet].currentChampion.Key?
    ensures MoveNft(s, a, s.kings[a.pet]).error == RecaptureError(s, a)
  {
    TransferExact(s.ledger, a.prevAta, a.nftAta, KingPda(a.pet), 1);
  }

  lemma MoveError(s: State, a: TakeAccounts)
    requires Safe(s) && RightAccounts(s, a) && MoveNft(s, a, s.kings[a.pet]).Failure?
    ensures !s.kings[a.pet].IsUnclaimed() && MoveNft(s, a, s.kings[a.pet]).error == RecaptureError(s, a)
  {
    assert NftOk(s, a.pet);
    NftMovable(s, a);
    WithinSupply(s.ledger, a.nftAta);
    RecaptureFails(s, a);
  }

  lemma CaptureFails(s: State, a: TakeAccounts)
    requires RightAccounts(s, a) && CheckTakeAccounts(s, a).Success? && DoTakeThrone(s, a).Failure?
    ensures var k := s.kings[a.pet];
            DoTakeThrone(s, a).error ==
              if k.settled || (k.settlesAtSlot != 0 && s.slot >= k.settlesAtSlot) then SettlementPeriodEnded
              else if s.ledger[a.pumpAta].amount <= k.championBalance then NotTopHolder
              else if MoveNft(s, a, k).Failure? then MoveNft(s, a, k).error
              else SettlementNotReady
  {
    if MoveNft(s, a, s.kings[a.pet]).Success? {
      MovedKeepsOwner(s, a);
    }
  }

  /** With the right accounts, which error a failed capture gives. */
  lemma {:induction false} CaptureErrors(s: State, a: TakeAccounts)
    requires Safe(s) && RightAccounts(s, a) && DoTakeThrone(s, a).Failure?
    ensures var k := s.kings[a.pet];
            DoTakeThrone(s, a).error ==
              if k.settled || (k.settlesAtSlot != 0 && s.slot >= k.settlesAtSlot) then SettlementPeriodEnded
              else if s.ledger[a.pumpAta].amount <= k.championBalance then NotTopHolder
              else if k.IsUnclaimed() then SettlementNotReady
              else RecaptureError(s, a)
  {
    RightAccountsPass(s, a);
    CaptureFails(s, a);
    CaptureExact(s, a);
    if MoveNft(s, a, s.kings[a.pet]).Failure? {
      MoveError(s, a);
    }
    assert NftOk(s, a.pet);
    NftMovable(s, a);
  }

  /** In custody, whichever account of the mint is not empty can be recaptured from. */
  lemma HolderRecapturable(s: State, p: Address, a: Address)
    requires Safe(s) && Custody(s, p) && p in s.kings && !s.kings[p].IsUnclaimed() && !s.kings[p].settled
    requires a in s.ledger && s.ledger[a].mint == s.kings[p].nftMint && s.ledger[a].amount >= 1
    ensures Recapturable(s, p, a)
  {
    var held :| HeldBy(s, p, held);
    ExactlyOneHolder(s, p, held);
  }

  /**
   After every run in which the champions of this pet leave its NFT alone, with the account that
   holds the NFT passed for the previous champion: a capture succeeds exactly when the throne
   is not settled, the window is open, the balance is strictly larger, and a first deadline
   fits in a u64.
  */
  lemma {:induction false} QuietCaptureExact(s: State, steps: seq<Step>, a: TakeAccounts)
    requires Safe(s) && Custody(s, a.pet) && Quiet(s, steps, a.pet) && RightAccounts(Run(s, steps), a)
    requires var t := Run(s, steps);
             t.kings[a.pet].IsUnclaimed() || (t.ledger[a.prevAta].mint == a.nftMint && t.ledger[a.prevAta].amount >= 1)
    ensures DoTakeThrone(Run(s, steps), a).Success? <==> WindowOpen(Run(s, steps), a)
  {
    var t := Run(s, steps);
    CustodyRun(s, steps, a.pet);
    CaptureExact(t, a);
    if !t.kings[a.pet].IsUnclaimed() && !t.kings[a.pet].settled {
      HolderRecapturable(t, a.pet, a.prevAta);
    }
  }

  /** After such a run a claimed and unsettled throne has an account to recapture from. */
  lemma {:induction false} HolderExists(s: State, steps: seq<Step>, p: Address)
    requires Safe(s) && Custody(s, p) && Quiet(s, steps, p) && p in Run(s, steps).kings
    ensures var t := Run(s, steps);
            t.kings[p].IsUnclaimed() || t.kings[p].settled || exists a <- t.ledger :: Recapturable(t, p, a)
  {
    CustodyRun(s, steps, p);
    var t := Run(s, steps);
    if !t.kings[p].IsUnclaimed() && !t.kings[p].settled {
      var a :| HeldBy(t, p, a);
      assert Recapturable(t, p, a);
    }
  }

  // ---------------------------------------------------------------- settlement

  /** What the account constraints of a settlement ask for. */
  ghost predicate SettleAccounts(s: State, signer: Address, pet: Address, ata: Address, nftMint: Address) {
    && signer.Key? && signer == s.oracle
    && pet in s.kings && ata in s.ledger && nftMint in s.mints
    && s.ledger[ata].owner == s.kings[pet].currentChampion && s.ledger[ata].mint == s.kings[pet].nftMint
  }

  lemma SettleAccountsExact(s: State, signer: Address, pet: Address, ata: Address, nftMint: Address)
    requires BindingOk(s)
    ensures CheckSettleAccounts(s, signer, pet, ata, nftMint).Success? <==> SettleAccounts(s, signer, pet, ata, nftMint)
  {
  }

  lemma SettleOutcome(s: State, signer: Address, pet: Address, ata: Address, nftMint: Address)
    requires CheckSettleAccounts(s, signer, pet, ata, nftMint).Success? && pet in s.kings && ata in s.ledger
    requires s.kings[pet].currentChampion == s.ledger[ata].owner && s.kings[pet].currentChampion.Key?
    ensures var k, r := s.kings[pet], DoSettleThrone(s, signer, pet, ata, nftMint);
            && (r.Success? <==>
                  && !k.settled && k.settlesAtSlot != 0 && s.slot >= k.settlesAtSlot
                  && s.rule.OwnerOrDelegate? && s.ledger[ata].delegate == Some(KingPda(pet)))
            && (r.Failure? ==>
                  r.error == if k.settled then AlreadySettled
                             else if k.settlesAtSlot == 0 || s.slot < k.settlesAtSlot then SettlementNotReady
                             else TokenProgram(OwnerMismatch))
  {
  }

  /**
   Exactly when a settlement succeeds, and with the right accounts, which error it gives
   otherwise. The account passed as the NFT's mint may be any mint.
  */
  lemma {:induction false} SettleExact(s: State, signer: Address, pet: Address, ata: Address, nftMint: Address)
    requires Safe(s) && PetChronicled(s, pet)
    ensures var r := DoSettleThrone(s, signer, pet, ata, nftMint);
            && (r.Success? <==>
                  && SettleAccounts(s, signer, pet, ata, nftMint)
                  && var k := s.kings[pet];
                  && !k.IsUnclaimed() && !k.settled && s.slot >= k.settlesAtSlot
                  && s.rule.OwnerOrDelegate? && s.ledger[ata].delegate == Some(KingPda(pet)))
            && (r.Failure? && SettleAccounts(s, signer, pet, ata, nftMint) ==>
                  var k := s.kings[pet];
                  r.error == if k.settled then AlreadySettled
                             else if k.IsUnclaimed() || s.slot < k.settlesAtSlot then SettlementNotReady
                             else TokenProgram(OwnerMismatch))
  {
    SettleAccountsExact(s, signer, pet, ata, nftMint);
    if SettleAccounts(s, signer, pet, ata, nftMint) {
      assert NftOk(s, pet);
      SettleOutcome(s, signer, pet, ata, nftMint);
    }
  }

  lemma UnsettledKept(s: State, t: State, p: Address)
    requires s.rule.OwnerOnly? && p in t.kings && KingChange(s, t, p)
    requires p in s.kings ==> !s.kings[p].settled && s.kings[p].currentChampion.Key?
    ensures !t.kings[p].settled
  {
  }

  /** No step changes who may revoke or who the oracle is. */
  lemma RuleAfter(s: State, step: Step, t: State)
    requires Effect(s, step, t)
    ensures t.rule == s.rule && t.oracle == s.oracle
  {
  }

  lemma {:induction false} RuleKept(s: State, steps: seq<Step>)
    requires BindingOk(s)
    ensures BindingOk(Run(s, steps)) && Run(s, steps).rule == s.rule && Run(s, steps).oracle == s.oracle
  {
    if steps != [] {
      var n := |steps| - 1;
      var u := Run(s, steps[..n]);
      RuleKept(s, steps[..n]);
      BindingNext(u, steps[n]);
      if TryStep(u, steps[n]).Success? {
        StepEffect(u, steps[n], TryStep(u, steps[n]).value);
        RuleAfter(u, steps[n], TryStep(u, steps[n]).value);
      }
    }
  }

  /** Under the owner-only rule nothing ever settles, although the documentation promises it. */
  lemma {:induction false} OwnerOnlyNeverSettles(s: State, steps: seq<Step>, p: Address)
    requires Safe(s) && s.rule.OwnerOnly? && forall q <- s.kings :: !s.kings[q].settled
    requires p in Run(s, steps).kings
    ensures Run(s, steps).rule.OwnerOnly? && !Run(s, steps).kings[p].settled
  {
    RuleKept(s, steps);
    if steps != [] {
      var n := |steps| - 1;
      var u := Run(s, steps[..n]);
      SafeRun(s, steps[..n]);
      RuleKept(s, steps[..n]);
      if p in u.kings {
        OwnerOnlyNeverSettles(s, steps[..n], p);
      }
      assert p in u.kings ==> NftOk(u, p);
      KingStep(u, steps[n], p);
      UnsettledKept(u, Next(u, steps[n]), p);
    }
  }

  /** How long until the deadline. */
  function WaitFor(s: State, p: Address): nat
    requires p in s.kings
  {
    if s.slot < s.kings[p].settlesAtSlot then s.kings[p].settlesAtSlot - s.slot else 0
  }

  /** The state once the clock has reached the deadline. */
  function Waited(s: State, p: Address): State
    requires p in s.kings
  {
    s.(slot := s.slot + WaitFor(s, p))
  }

  lemma LaterIsSafe(s: State, t: State)
    requires Safe(s) && s.slot <= t.slot <= U64_MAX && t == s.(slot := t.slot)
    ensures Safe(t)
  {
    assert ChainEffect(s, t) && LedgerOk(t);
    SafeAfter(s, AdvanceSlots(t.slot - s.slot), t);
  }

  lemma WaitingIsSafe(s: State, p: Address)
    requires Safe(s) && p in s.kings && s.kings[p].settlesAtSlot <= U64_MAX
    ensures Safe(Waited(s, p)) && DoAdvanceSlots(s, WaitFor(s, p)) == Success(Waited(s, p))
  {
    LaterIsSafe(s, Waited(s, p));
  }

  lemma WaitingIsChronicled(s: State, p: Address)
    requires PetChronicled(s, p) && p in s.kings
    ensures PetChronicled(Waited(s, p), p)
  {
  }

  /**
   Settlement progress under the rule that lets a delegate revoke: from any state in which
   the champion still holds the NFT, waiting out the window and settling succeeds, and
   clears the king's delegation over the account that holds the NFT.
  */
  lemma {:induction false} SettlementProgress(s: State, p: Address, held: Address)
    requires Safe(s) && PetChronicled(s, p) && p in s.kings && s.oracle.Key? && s.rule.OwnerOrDelegate?
    requires !s.kings[p].IsUnclaimed() && !s.kings[p].settled && HeldBy(s, p, held)
    ensures var u := Waited(s, p);
            var r := DoSettleThrone(u, s.oracle, p, held, s.kings[p].nftMint);
            && DoAdvanceSlots(s, WaitFor(s, p)) == Success(u)
            && r.Success? && Settled(u, p, held, r.value)
  {
    var u := Waited(s, p);
    WaitingIsSafe(s, p);
    WaitingIsChronicled(s, p);
    SettleExact(u, s.oracle, p, held, s.kings[p].nftMint);
    assert NftOk(s, p);
    SettleShape(u, s.oracle, p, held, s.kings[p].nftMint);
  }

  // ---------------------------------------------------------------- out of the king's reach

  /** In no step of the run does the owner of account `a` succeed with an operation on it. */
  ghost predicate Undisturbed(s: State, steps: seq<Step>, a: Address) {
    forall i :: 0 <= i < |steps| ==> !OwnerActs(Run(s, steps[..i]), steps[i], a)
  }

  /**
   Account `a` of a wallet holds the NFT of a claimed throne, and the king is either not its
   delegate or, the throne being settled, can no longer use the delegation.
  */
  ghost predicate Parked(s: State, p: Address, a: Address)
    requires p in s.kings
  {
    var k := s.kings[p];
    && !k.IsUnclaimed() && a in s.ledger
    && s.ledger[a].owner.Key? && s.ledger[a].mint == k.nftMint && s.ledger[a].amount >= 1
    && (s.ledger[a].delegate == None || (k.settled && s.ledger[a].delegate == Some(KingPda(p))))
  }

  /** A settlement parks the NFT where the champion holds it. */
  lemma SettlementParks(s: State, p: Address, ata: Address, t: State, held: Address)
    requires Settled(s, p, ata, t) && NftOk(s, p) && !s.kings[p].IsUnclaimed() && HeldBy(s, p, held)
    ensures Parked(t, p, held)
  {
  }

  lemma ParkedNotCaptured(s: State, a: TakeAccounts, t: State, parked: Address)
    requires LedgerOk(s) && a.pet in s.kings && NftOk(s, a.pet) && Parked(s, a.pet, parked)
    ensures !Captured(s, a, t)
  {
    OnlyHolder(s.ledger, s.kings[a.pet].nftMint, parked);
  }

  /** What stays the same: the NFT's account and owner, and the record except for its settlement. */
  ghost predicate StillParked(s: State, t: State, p: Address, a: Address)
    requires p in s.kings && a in s.ledger
  {
    && p in t.kings && t.kings[p] == s.kings[p].(settled := t.kings[p].settled)
    && Parked(t, p, a) && t.ledger[a].owner == s.ledger[a].owner
  }

  lemma ParkedUntouched(s: State, t: State, p: Address, a: Address)
    requires p in s.kings && Parked(s, p, a) && Untouched(s, t, p)
    ensures StillParked(s, t, p, a)
  {
  }

  lemma ParkedAfterSettle(s: State, p: Address, ata: Address, t: State, a: Address)
    requires p in s.kings && Parked(s, p, a) && Settled(s, p, ata, t)
    ensures StillParked(s, t, p, a)
  {
  }

  lemma ParkedAfterWallet(s: State, src: Address, t: State, p: Address, a: Address)
    requires p in s.kings && Parked(s, p, a) && WalletEffect(s, src, t) && src != a
    ensures StillParked(s, t, p, a)
  {
  }

  lemma ParkedAfter(s: State, step: Step, t: State, p: Address, a: Address)
    requires LedgerOk(s) && (forall q <- s.kings :: NftOk(s, q))
    requires p in s.kings && Parked(s, p, a) && Effect(s, step, t)
    requires IsWalletStep(step) ==> ActsOn(step) != a
    ensures StillParked(s, t, p, a)
  {
    if !AboutPet(s, step, p) {
      Elsewhere(s, step, t, p);
      ParkedUntouched(s, t, p, a);
    } else if step.TakeThrone? {
      ParkedNotCaptured(s, step.accounts, t, a);
    } else if step.SettleThrone? {
      ParkedAfterSettle(s, p, step.championAta, t, a);
    } else {
      ParkedAfterWallet(s, ActsOn(step), t, p, a);
    }
  }

  lemma ParkedNext(s: State, step: Step, p: Address, a: Address)
    requires Safe(s) && p in s.kings && Parked(s, p, a) && !OwnerActs(s, step, a)
    ensures StillParked(s, Next(s, step), p, a)
  {
    if TryStep(s, step).Success? {
      StepEffect(s, step, TryStep(s, step).value);
      if IsWalletStep(step) && ActsOn(step) == a {
        OnlyOwnerActs(s, step, a);
      }
      ParkedAfter(s, step, TryStep(s, step).value, p, a);
    }
  }

  lemma UndisturbedPrefix(s: State, steps: seq<Step>, a: Address)
    requires steps != [] && Undisturbed(s, steps, a)
    ensures Undisturbed(s, steps[..|steps| - 1], a)
    ensures !OwnerActs(Run(s, steps[..|steps| - 1]), steps[|steps| - 1], a)
  {
    var n := |steps| - 1;
    forall i | 0 <= i < n ensures !OwnerActs(Run(s, steps[..n][..i]), steps[..n][i], a) {
      assert steps[..n][..i] == steps[..i];
    }
  }

  /** Whatever anybody else does or tries, a parked NFT stays parked until its owner operates on the account. */
  lemma {:induction false} ParkedRun(s: State, steps: seq<Step>, p: Address, a: Address)
    requires Safe(s) && p in s.kings && Parked(s, p, a)
    requires Undisturbed(s, steps, a)
    ensures Safe(Run(s, steps)) && StillParked(s, Run(s, steps), p, a)
  {
    if steps != [] {
      var n := |steps| - 1;
      UndisturbedPrefix(s, steps, a);
      ParkedRun(s, steps[..n], p, a);
      SafeStep(Run(s, steps[..n]), steps[n]);
      ParkedNext(Run(s, steps[..n]), steps[n], p, a);
    }
  }

  /**
   After settlement the NFT is the champion's for good: under either revoke rule the record
   stays final and the NFT stays in the account until its owner operates on it.
  */
  lemma {:induction false} SettledMeansOwned(s: State, steps: seq<Step>, p: Address, a: Address)
    requires Safe(s) && p in s.kings && s.kings[p].settled && Parked(s, p, a)
    requires Undisturbed(s, steps, a)
    ensures var t := Run(s, steps);
            && p in t.kings && t.kings[p] == s.kings[p]
            && Parked(t, p, a) && t.ledger[a].owner == s.ledger[a].owner && t.ledger[a].amount == 1
            && Supply(t.ledger, t.kings[p].nftMint) == 1
  {
    var t := Run(s, steps);
    ParkedRun(s, steps, p, a);
    SettledForever(s, steps, p);
    assert NftOk(t, p);
    OnlyHolder(t.ledger, t.kings[p].nftMint, a);
    WithinSupply(t.ledger, a);
  }

  /**
   A champion who revoked the king stops the throne: until the owner operates on the account
   again, no capture of that pet succeeds with any accounts, the champion's own included.
  */
  lemma {:induction false} RevokedMeansStuck(s: State, steps: seq<Step>, p: Address, a: Address, b: TakeAccounts)
    requires Safe(s) && p in s.kings && Parked(s, p, a) && b.pet == p
    requires Undisturbed(s, steps, a)
    ensures DoTakeThrone(Run(s, steps), b).Failure?
  {
    var t := Run(s, steps);
    ParkedRun(s, steps, p, a);
    assert NftOk(t, p);
    if DoTakeThrone(t, b).Success? {
      TakeShape(t, b);
      ParkedNotCaptured(t, b, DoTakeThrone(t, b).value, a);
    }
  }

  /**
   The whole life of a throne under the rule that lets a delegate revoke: after any run in
   which the champions leave the NFT alone, if the throne is claimed and not settled, some
   account of the champion holds its NFT, waiting for the deadline and settling with that
   account succeeds, and in every continuation in which the champion does not itself operate on
   the account the record stays final and the NFT stays there, the only one of its mint.
  */
  lemma {:induction false} SettlesForGood(s: State, steps: seq<Step>, p: Address, rest: seq<Step>)
    returns (held: Address)
    requires Safe(s) && Chronicled(s) && Custody(s, p) && Quiet(s, steps, p)
    requires s.rule.OwnerOrDelegate? && s.oracle.Key?
    requires var t := Run(s, steps);
             p in t.kings && !t.kings[p].IsUnclaimed() && !t.kings[p].settled
    ensures var t := Run(s, steps);
            && HeldBy(t, p, held)
            && DoAdvanceSlots(t, WaitFor(t, p)) == Success(Waited(t, p))
            && var r := DoSettleThrone(Waited(t, p), s.oracle, p, held, t.kings[p].nftMint);
            && r.Success?
            && (Undisturbed(r.value, rest, held) ==>
                  var e := Run(r.value, rest);
                  && p in e.kings && e.kings[p] == t.kings[p].(settled := true)
                  && held in e.ledger && e.ledger[held].owner == t.kings[p].currentChampion
                  && e.ledger[held].mint == t.kings[p].nftMint && e.ledger[held].amount == 1
                  && Supply(e.ledger, t.kings[p].nftMint) == 1)
  {
    var t := Run(s, steps);
    CustodyRun(s, steps, p);
    ChronicledRun(s, steps);
    RuleKept(s, steps);
    held :| HeldBy(t, p, held);
    var u := Waited(t, p);
    SettlementProgress(t, p, held);
    WaitingIsSafe(t, p);
    var r := DoSettleThrone(u, s.oracle, p, held, t.kings[p].nftMint);
    SettledIsParked(u, s.oracle, p, held, t.kings[p].nftMint, r.value);
    if Undisturbed(r.value, rest, held) {
      SettledMeansOwned(r.value, rest, p, held);
    }
  }

  /** A settlement with the account that holds the NFT ends in a safe state and parks it there. */
  lemma SettledIsParked(u: State, signer: Address, p: Address, held: Address, nftMint: Address, v: State)
    requires Safe(u) && p in u.kings && HeldBy(u, p, held) && !u.kings[p].IsUnclaimed()
    requires DoSettleThrone(u, signer, p, held, nftMint) == Success(v)
    ensures Safe(v) && p in v.kings && v.kings[p] == u.kings[p].(settled := true)
    ensures Parked(v, p, held) && v.ledger[held].owner == u.kings[p].currentChampion
  {
    assert NftOk(u, p);
    SettleShape(u, signer, p, held, nftMint);
    SettlementParks(u, p, held, v, held);
    SettleLedger(u, p, held, v);
    SafeAfter(u, SettleThrone(signer, p, held, nftMint), v);
  }
}
