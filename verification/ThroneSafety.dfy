/**
 What every step keeps, for all pets at once and with wallets free to take any of the wallet
 and mint steps of `Throne.Step`: supplies, bindings, escrow custody.
*/
module ThroneSafety {
  import opened Bytes
  import opened Token
  import opened Throne
  import opened Wrappers

  // ---------------------------------------------------------------- invariants

  /** The recorded supply of every mint is what its accounts hold together. */
  ghost predicate LedgerOk(s: State) {
    && (forall a <- s.ledger :: s.ledger[a].mint in s.mints)
    && (forall m <- s.mints :: Supply(s.ledger, m) == s.mints[m].supply <= U64_MAX)
  }

  /** Accounts sit at the addresses they are derived from, and a king needs a bonded launch. */
  ghost predicate BindingOk(s: State) {
    && (forall p <- s.pets :: p == PetPda(s.pets[p].owner, s.pets[p].kolName))
    && (forall p <- s.launches :: s.launches[p].pet == p && p in s.pets)
    && (forall p <- s.kings :: s.kings[p].pet == p && p in s.launches && s.launches[p].pumpMint != SYSTEM_PROGRAM)
  }

  /** One king's NFT: never more than one, minted by no wallet, and in escrow until the first capture. */
  ghost predicate NftOk(s: State, p: Address)
    requires p in s.kings
  {
    var k := s.kings[p];
    && k.nftMint in s.mints && s.mints[k.nftMint].authority == KingPda(p) && s.mints[k.nftMint].supply <= 1
    && k.nftEscrowVault == EscrowVault(p, k.nftMint)
    && k.nftEscrowVault in s.ledger
    && EscrowAccount(s.ledger[k.nftEscrowVault], p, k.nftMint)
    && (k.IsUnclaimed() ==> s.ledger[k.nftEscrowVault].amount >= 1)
    && k.currentChampion.Key?
    && (k.IsUnclaimed() <==> k.currentChampion == SYSTEM_PROGRAM)
    && (k.IsUnclaimed() ==> k.settlesAtSlot == 0)
  }

  ghost predicate EscrowAccount(acc: Account, p: Address, nftMint: Address) {
    acc.owner == EscrowPda(KingPda(p)) && acc.mint == nftMint && acc.delegate == None
  }

  ghost predicate Safe(s: State) {
    && s.slot <= U64_MAX
    && LedgerOk(s)
    && BindingOk(s)
    && forall p <- s.kings :: NftOk(s, p)
  }

  // ---------------------------------------------------------------- what a capture does

  /** Where the NFT comes from. */
  function Source(k: KingOfHill, a: TakeAccounts): Address {
    if k.IsUnclaimed() then a.escrowVault else a.prevAta
  }

  /** The guards that a successful capture has passed. */
  ghost predicate TakeGuards(s: State, a: TakeAccounts) {
    && a.challenger.Key? && a.challenger != SYSTEM_PROGRAM
    && a.pet in s.kings && a.pet in s.launches
    && a.pumpAta in s.ledger && a.nftAta in s.ledger && a.escrowVault in s.ledger && a.prevAta in s.ledger
    && var k, l := s.kings[a.pet], s.ledger;
    && l[a.pumpAta].owner == a.challenger && l[a.pumpAta].mint == a.pumpMint == s.launches[a.pet].pumpMint
    && a.nftMint == k.nftMint && a.escrowVault == k.nftEscrowVault
    && l[a.nftAta].owner == a.challenger && l[a.nftAta].mint == k.nftMint
    && !k.settled && !IsWindowOver(s.slot, k.settlesAtSlot)
    && l[a.pumpAta].amount > k.championBalance
    && (k.IsUnclaimed() ==> s.slot + THRONE_SETTLEMENT_SLOTS <= U64_MAX)
    && (!k.IsUnclaimed() ==>
          && a.prevAta != a.escrowVault
          && l[a.prevAta].owner == k.currentChampion
          && (l[a.prevAta].delegate == Some(KingPda(a.pet)) || k.currentChampion == KingPda(a.pet)))
  }

  /**
   One token goes from `src` to `dst`, which is then delegated to the king for one; every
   other account is untouched. Moving within one account changes no amount.
  */
  ghost predicate NftMoved(l: Ledger, l': Ledger, src: Address, dst: Address, king: Address) {
    && src in l && dst in l && l[src].mint == l[dst].mint && l[src].amount >= 1
    && l'.Keys == l.Keys
    && (forall b <- l :: b != src && b != dst ==> l'[b] == l[b])
    && l'[dst] == l[dst].(amount := l[dst].amount + (if src == dst then 0 else 1),
                          delegate := Some(king), delegated := 1)
    && (src != dst ==>
          && l'[src].owner == l[src].owner && l'[src].mint == l[src].mint
          && l'[src].amount == l[src].amount - 1
          && (l[src].delegate == None ==> l'[src].delegate == None))
  }

  /**
   A capture in full: which guards held and what it left behind. The account that a recapture
   debits has no mint constraint of its own; that it holds the king's NFT mint follows from
   the token program's equal-mint rule.
  */
  ghost predicate Captured(s: State, a: TakeAccounts, t: State) {
    && TakeGuards(s, a)
    && NftMoved(s.ledger, t.ledger, Source(s.kings[a.pet], a), a.nftAta, KingPda(a.pet))
    && var k := s.kings[a.pet];
    var deadline := if k.IsUnclaimed() then s.slot + THRONE_SETTLEMENT_SLOTS else k.settlesAtSlot;
    var balance := s.ledger[a.pumpAta].amount;
    var k' := k.(currentChampion := a.challenger, championBalance := balance, lastCapturedSlot := s.slot,
                 takeOvers := SaturatingInc(k.takeOvers), settlesAtSlot := deadline);
    && t == s.(ledger := t.ledger, kings := s.kings[a.pet := k'], log := t.log)
    && t.log == s.log + [ThroneCaptured(a.pet, a.challenger, k.currentChampion, balance,
                                        k'.takeOvers, s.slot, k.IsUnclaimed(), deadline)]
  }

  lemma MoveAndDelegate(l: Ledger, src: Address, dst: Address, authority: Address, king: Address)
    requires Transfer(l, src, dst, authority, 1).Success?
    ensures var moved := Transfer(l, src, dst, authority, 1).value;
            && dst in moved
            && var l' := moved[dst := moved[dst].(delegate := Some(king), delegated := 1)];
            NftMoved(l, l', src, dst, king) && Moves(l, l')
  {
    var moved := Transfer(l, src, dst, authority, 1).value;
    TransferEffect(l, src, dst, authority, 1);
    TransferMoves(l, src, dst, authority, 1);
    DelegationMoves(moved, dst, moved[dst].(delegate := Some(king), delegated := 1));
    MovesTrans(l, moved, moved[dst := moved[dst].(delegate := Some(king), delegated := 1)]);
  }

  lemma TakePassed(s: State, a: TakeAccounts)
    requires DoTakeThrone(s, a).Success?
    ensures TakeGuards(s, a)
  {
  }

  lemma TakeMoved(s: State, a: TakeAccounts)
    requires DoTakeThrone(s, a).Success?
    ensures a.pet in s.kings
    ensures var l' := DoTakeThrone(s, a).value.ledger;
            NftMoved(s.ledger, l', Source(s.kings[a.pet], a), a.nftAta, KingPda(a.pet)) && Moves(s.ledger, l')
  {
    var k := s.kings[a.pet];
    var authority := if k.IsUnclaimed() then EscrowPda(KingPda(a.pet)) else KingPda(a.pet);
    MoveAndDelegate(s.ledger, Source(k, a), a.nftAta, authority, KingPda(a.pet));
  }

  lemma TakeShape(s: State, a: TakeAccounts)
    requires DoTakeThrone(s, a).Success?
    ensures Captured(s, a, DoTakeThrone(s, a).value)
    ensures Moves(s.ledger, DoTakeThrone(s, a).value.ledger)
  {
    TakePassed(s, a);
    TakeMoved(s, a);
  }

  /** The same for a settlement. */
  ghost predicate Settled(s: State, pet: Address, ata: Address, t: State) {
    && pet in s.kings && ata in s.ledger
    && var k := s.kings[pet];
    && s.ledger[ata].owner == k.currentChampion && s.ledger[ata].mint == k.nftMint
    && !k.settled && IsWindowOver(s.slot, k.settlesAtSlot)
    && (k.currentChampion == KingPda(pet) || (s.rule.OwnerOrDelegate? && s.ledger[ata].delegate == Some(KingPda(pet))))
    && t.ledger == s.ledger[ata := s.ledger[ata].(delegate := None, delegated := 0)]
    && t == s.(ledger := t.ledger, kings := s.kings[pet := k.(settled := true)], log := t.log)
    && t.log == s.log + [ThroneSettled(pet, k.currentChampion, k.takeOvers, s.slot)]
  }

  lemma {:induction false} SettleShape(s: State, signer: Address, pet: Address, ata: Address, nftMint: Address)
    requires DoSettleThrone(s, signer, pet, ata, nftMint).Success?
    ensures signer == s.oracle && Settled(s, pet, ata, DoSettleThrone(s, signer, pet, ata, nftMint).value)
  {
  }

  /**
   A wallet operation on account `src`: it takes the authority of a key, and other accounts
   keep everything but may gain tokens of the same mint.
  */
  ghost predicate WalletEffect(s: State, src: Address, t: State) {
    && src in s.ledger && Reachable(s.ledger[src])
    && (forall b <- s.ledger :: b != src ==> b in t.ledger && Gained(s.ledger[b], t.ledger[b]))
    && (forall b <- s.ledger :: s.ledger[b].mint != s.ledger[src].mint ==> b in t.ledger && t.ledger[b] == s.ledger[b])
    && (forall m <- s.mints :: m in t.mints && Shrunk(s.mints[m], t.mints[m]))
    && (forall m <- s.mints :: m != s.ledger[src].mint ==> m in t.mints && t.mints[m] == s.mints[m])
    && t == s.(ledger := t.ledger, mints := t.mints)
  }

  /** A key can act on the account, as its owner or as its delegate. */
  predicate Reachable(acc: Account) {
    acc.owner.Key? || (acc.delegate.Some? && acc.delegate.value.Key?)
  }

  predicate Gained(acc: Account, acc': Account) {
    acc' == acc.(amount := acc'.amount) && acc'.amount >= acc.amount
  }

  predicate Shrunk(m: Mint, m': Mint) {
    m'.authority == m.authority && m'.supply <= m.supply
  }

  /** Only the owner or the delegation of account `id` changed. */
  ghost predicate Reassigned(s: State, id: Address, t: State) {
    && id in s.ledger && id in t.ledger && Reachable(s.ledger[id])
    && t.ledger[id].mint == s.ledger[id].mint && t.ledger[id].amount == s.ledger[id].amount
    && t == s.(ledger := s.ledger[id := t.ledger[id]])
  }

  lemma ReassignShape(s: State, step: Step, t: State)
    requires (step.ApproveDelegate? || step.RevokeDelegate? || step.SetAccountOwner?) && TryStep(s, step) == Success(t)
    ensures Reassigned(s, step.account, t)
  {
  }

  lemma ReassignedEffect(s: State, id: Address, t: State)
    requires Reassigned(s, id, t)
    ensures WalletEffect(s, id, t)
  {
  }

  lemma TransferShape(s: State, signer: Address, from: Address, to: Address, amount: nat, t: State)
    requires DoWalletOperation(s, signer, Transfer(s.ledger, from, to, signer, amount)) == Success(t)
    ensures WalletEffect(s, from, t)
  {
    TransferEffect(s.ledger, from, to, signer, amount);
  }

  lemma CloseShape(s: State, signer: Address, account: Address, t: State)
    requires DoWalletOperation(s, signer, Close(s.ledger, account, signer)) == Success(t)
    ensures WalletEffect(s, account, t)
  {
  }

  lemma BurnShape(s: State, signer: Address, account: Address, amount: nat, t: State)
    requires DoBurnTokens(s, signer, account, amount) == Success(t)
    ensures WalletEffect(s, account, t)
  {
  }

  lemma WalletShape(s: State, step: Step, t: State)
    requires IsWalletStep(step) && TryStep(s, step) == Success(t)
    ensures WalletEffect(s, ActsOn(step), t)
  {
    if step.TransferTokens? {
      TransferShape(s, step.signer, step.from, step.to, step.amount, t);
    } else if step.BurnTokens? {
      BurnShape(s, step.signer, step.account, step.amount, t);
    } else if step.CloseAccount? {
      CloseShape(s, step.signer, step.account, t);
    } else {
      ReassignShape(s, step, t);
      ReassignedEffect(s, step.account, t);
    }
  }

  /**
   The clock and the mints: nothing is taken from anybody, no account is closed, and what
   belongs to a king's mint stays exactly as it is.
  */
  ghost predicate ChainEffect(s: State, t: State) {
    && s.slot <= t.slot && (s.slot <= U64_MAX ==> t.slot <= U64_MAX)
    && (forall e <- s.ledger :: e in t.ledger && Gained(s.ledger[e], t.ledger[e]))
    && (forall e <- s.ledger :: s.ledger[e].mint in s.mints && s.mints[s.ledger[e].mint].authority.KingPda? ==>
          e in t.ledger && t.ledger[e] == s.ledger[e])
    && (forall m <- s.mints :: s.mints[m].authority.KingPda? ==> m in t.mints && t.mints[m] == s.mints[m])
    && t == s.(slot := t.slot, ledger := t.ledger, mints := t.mints)
  }

  lemma ChainShape(s: State, step: Step, t: State)
    requires !IsProgramStep(step) && !IsWalletStep(step) && TryStep(s, step) == Success(t)
    ensures ChainEffect(s, t)
  {
  }

  // ---------------------------------------------------------------- minting and binding

  /** Minting a king NFT opens its escrow with the only token of a new mint. */
  ghost predicate Minted(s: State, pet: Address, nftMint: Address, t: State) {
    var escrow := Ata(EscrowPda(KingPda(pet)), nftMint);
    && pet in s.launches && s.launches[pet].pet == pet && s.launches[pet].pumpMint != SYSTEM_PROGRAM
    && pet !in s.kings && nftMint !in s.mints && escrow !in s.ledger
    && t.kings == s.kings[pet := KingOfHill(pet, nftMint, escrow, SYSTEM_PROGRAM, 0, 0, 0, 0, false)]
    && t.mints == s.mints[nftMint := Mint(KingPda(pet), 1)]
    && t.ledger == s.ledger[escrow := Account(EscrowPda(KingPda(pet)), nftMint, 1, None, 0)]
    && t == s.(mints := t.mints, ledger := t.ledger, kings := t.kings, log := t.log)
    && t.log == s.log + [KingMinted(pet, nftMint, escrow, s.slot)]
  }

  lemma {:induction false} MintShape(s: State, signer: Address, pet: Address, nftMint: Address,
                                       name: Octets, symbol: Octets, uri: Octets)
    requires DoMintKolNft(s, signer, pet, nftMint, name, symbol, uri).Success?
    ensures signer == s.oracle && CheckMetadataLengths(name, symbol, uri).Success?
    ensures Minted(s, pet, nftMint, DoMintKolNft(s, signer, pet, nftMint, name, symbol, uri).value)
  {
    var t := DoMintKolNft(s, signer, pet, nftMint, name, symbol, uri).value;
    var escrow := EscrowVault(pet, nftMint);
    assert t.ledger == s.ledger[escrow := Account(EscrowPda(KingPda(pet)), nftMint, 1, None, 0)];
  }

  /** When the pet was bound first; a pet of the zero key counts as new every time. */
  function FirstBound(s: State, id: Address, kolOwner: Address): nat {
    if id in s.pets && kolOwner != SYSTEM_PROGRAM then s.pets[id].bondedAt else s.slot
  }

  /** A bind touches one pet and its launch, and cannot change a bound mint. */
  ghost predicate Bound(s: State, kolOwner: Address, pumpMint: Address, kolName: Bytes32, t: State) {
    var id := PetPda(kolOwner, kolName);
    && id in t.pets && t.pets == s.pets[id := t.pets[id]]
    && id in t.launches && t.launches == s.launches[id := t.launches[id]]
    && t.pets[id] == Pet(kolOwner, kolName, FirstBound(s, id, kolOwner))
    && t.launches[id].pet == id && t.launches[id].pumpMint == pumpMint && t.launches[id].bondedSlot == s.slot
    && (id in s.launches ==> s.launches[id].pumpMint == pumpMint)
    && t == s.(pets := t.pets, launches := t.launches, log := t.log)
    && t.log == s.log + [LaunchBound(id, kolOwner, pumpMint, s.slot)]
  }

  lemma {:induction false} BindShape(s: State, signer: Address, kolOwner: Address, pumpMint: Address, kolName: Bytes32)
    requires BindingOk(s) && DoBindLaunch(s, signer, kolOwner, pumpMint, kolName).Success?
    ensures signer == s.oracle
    ensures Bound(s, kolOwner, pumpMint, kolName, DoBindLaunch(s, signer, kolOwner, pumpMint, kolName).value)
  {
  }

  // ---------------------------------------------------------------- any step

  /** What a successful step did, step by step. The proofs below use nothing else. */
  ghost predicate Effect(s: State, step: Step, t: State) {
    if step.TakeThrone? then Captured(s, step.accounts, t)
    else if step.SettleThrone? then Settled(s, step.pet, step.championAta, t)
    else if step.MintKolNft? then Minted(s, step.pet, step.nftMint, t)
    else if step.BindLaunch? then Bound(s, step.kolOwner, step.pumpMint, step.kolName, t)
    else if IsWalletStep(step) then WalletEffect(s, ActsOn(step), t)
    else ChainEffect(s, t)
  }

  lemma StepEffect(s: State, step: Step, t: State)
    requires BindingOk(s) && TryStep(s, step) == Success(t)
    ensures Effect(s, step, t)
  {
    if step.TakeThrone? {
      TakeShape(s, step.accounts);
    } else if step.SettleThrone? {
      SettleShape(s, step.signer, step.pet, step.championAta, step.nftMint);
    } else if step.MintKolNft? {
      MintShape(s, step.signer, step.pet, step.nftMint, step.name, step.symbol, step.uri);
    } else if step.BindLaunch? {
      BindShape(s, step.signer, step.kolOwner, step.pumpMint, step.kolName);
    } else if IsWalletStep(step) {
      WalletShape(s, step, t);
    } else {
      ChainShape(s, step, t);
    }
  }

  // ---------------------------------------------------------------- ledger

  /** A mint that no account refers to has no supply. */
  lemma NoSupply(l: Ledger, m: Address)
    requires forall a <- l :: l[a].mint != m
    ensures Supply(l, m) == 0
  {
    assert Balances(l, m) == map[];
  }

  lemma SupplyElsewhere(l: Ledger, id: Address, acc: Account)
    requires id in l ==> l[id].mint == acc.mint
    ensures forall m :: m != acc.mint ==> Supply(l[id := acc], m) == Supply(l, m)
    ensures Supply(l[id := acc], acc.mint) == Supply(l, acc.mint) - (if id in l then l[id].amount else 0) + acc.amount
  {
    forall m ensures m != acc.mint ==> Supply(l[id := acc], m) == Supply(l, m) {
      SupplyOfUpdate(l, id, acc, m);
    }
    SupplyOfUpdate(l, id, acc, acc.mint);
  }

  /** Writing one account and adjusting its mint's recorded supply by the difference. */
  lemma LedgerUpdated(s: State, id: Address, acc: Account, t: State)
    requires LedgerOk(s) && t.ledger == s.ledger[id := acc]
    requires acc.mint in s.mints && (id in s.ledger ==> s.ledger[id].mint == acc.mint)
    requires t.mints.Keys == s.mints.Keys
    requires forall m <- s.mints :: t.mints[m].supply
               == s.mints[m].supply
                  + if m != acc.mint then 0 else acc.amount - (if id in s.ledger then s.ledger[id].amount else 0)
    requires t.mints[acc.mint].supply <= U64_MAX
    ensures LedgerOk(t)
  {
    SupplyElsewhere(s.ledger, id, acc);
  }

  lemma LedgerMoved(s: State, t: State)
    requires LedgerOk(s) && Moves(s.ledger, t.ledger) && t.mints == s.mints
    ensures LedgerOk(t)
  {
  }

  lemma LedgerClosed(s: State, id: Address, t: State)
    requires LedgerOk(s) && id in s.ledger && s.ledger[id].amount == 0
    requires t.ledger == s.ledger - {id} && t.mints == s.mints
    ensures LedgerOk(t)
  {
    forall m <- t.mints ensures Supply(t.ledger, m) == t.mints[m].supply <= U64_MAX {
      SupplyOfRemoval(s.ledger, id, m);
    }
  }

  lemma LedgerCreated(s: State, mint: Address, authority: Address, t: State)
    requires LedgerOk(s) && DoCreateMint(s, mint, authority) == Success(t)
    ensures LedgerOk(t)
  {
    NoSupply(s.ledger, mint);
  }

  lemma MintedLedger(s: State, pet: Address, nftMint: Address, t: State)
    requires LedgerOk(s) && Minted(s, pet, nftMint, t)
    ensures LedgerOk(t)
  {
    NoSupply(s.ledger, nftMint);
    SupplyElsewhere(s.ledger, EscrowVault(pet, nftMint), Account(EscrowPda(KingPda(pet)), nftMint, 1, None, 0));
  }

  lemma BurnLedger(s: State, signer: Address, account: Address, amount: nat, t: State)
    requires LedgerOk(s) && DoBurnTokens(s, signer, account, amount) == Success(t)
    ensures LedgerOk(t)
  {
    LedgerUpdated(s, account, t.ledger[account], t);
  }

  lemma ReassignedLedger(s: State, id: Address, t: State)
    requires LedgerOk(s) && Reassigned(s, id, t)
    ensures LedgerOk(t)
  {
    LedgerUpdated(s, id, t.ledger[id], t);
  }

  lemma TransferLedger(s: State, signer: Address, from: Address, to: Address, amount: nat, t: State)
    requires LedgerOk(s) && DoWalletOperation(s, signer, Transfer(s.ledger, from, to, signer, amount)) == Success(t)
    ensures LedgerOk(t)
  {
    TransferMoves(s.ledger, from, to, signer, amount);
    LedgerMoved(s, t);
  }

  lemma CloseLedger(s: State, signer: Address, account: Address, t: State)
    requires LedgerOk(s) && DoWalletOperation(s, signer, Close(s.ledger, account, signer)) == Success(t)
    ensures LedgerOk(t)
  {
    LedgerClosed(s, account, t);
  }

  lemma WalletLedger(s: State, step: Step, t: State)
    requires LedgerOk(s) && IsWalletStep(step) && TryStep(s, step) == Success(t)
    ensures LedgerOk(t)
  {
    if step.TransferTokens? {
      TransferLedger(s, step.signer, step.from, step.to, step.amount, t);
    } else if step.BurnTokens? {
      BurnLedger(s, step.signer, step.account, step.amount, t);
    } else if step.CloseAccount? {
      CloseLedger(s, step.signer, step.account, t);
    } else {
      ReassignShape(s, step, t);
      ReassignedLedger(s, step.account, t);
    }
  }

  lemma OpenLedger(s: State, id: Address, owner: Address, mint: Address, t: State)
    requires LedgerOk(s) && DoOpenAccount(s, id, owner, mint) == Success(t)
    ensures LedgerOk(t)
  {
    LedgerUpdated(s, id, t.ledger[id], t);
  }

  lemma MintTokensLedger(s: State, signer: Address, to: Address, amount: nat, t: State)
    requires LedgerOk(s) && DoMintTokens(s, signer, to, amount) == Success(t)
    ensures LedgerOk(t)
  {
    LedgerUpdated(s, to, t.ledger[to], t);
  }

  lemma ChainLedger(s: State, step: Step, t: State)
    requires LedgerOk(s) && !IsProgramStep(step) && !IsWalletStep(step) && TryStep(s, step) == Success(t)
    ensures LedgerOk(t)
  {
    if step.CreateMint? {
      LedgerCreated(s, step.mint, step.authority, t);
    } else if step.OpenAccount? {
      OpenLedger(s, step.id, step.owner, step.mint, t);
    } else if step.MintTokens? {
      MintTokensLedger(s, step.signer, step.to, step.amount, t);
    }
  }

  lemma TakeLedger(s: State, a: TakeAccounts, t: State)
    requires LedgerOk(s) && DoTakeThrone(s, a) == Success(t)
    ensures LedgerOk(t)
  {
    TakeShape(s, a);
    LedgerMoved(s, t);
  }

  lemma SettleLedger(s: State, pet: Address, ata: Address, t: State)
    requires LedgerOk(s) && Settled(s, pet, ata, t)
    ensures LedgerOk(t)
  {
    LedgerUpdated(s, ata, t.ledger[ata], t);
  }

  lemma LedgerStep(s: State, step: Step, t: State)
    requires LedgerOk(s) && Effect(s, step, t) && TryStep(s, step) == Success(t)
    ensures LedgerOk(t)
  {
    if step.TakeThrone? {
      TakeLedger(s, step.accounts, t);
    } else if step.SettleThrone? {
      SettleLedger(s, step.pet, step.championAta, t);
    } else if step.MintKolNft? {
      MintedLedger(s, step.pet, step.nftMint, t);
    } else if IsWalletStep(step) {
      WalletLedger(s, step, t);
    } else if !step.BindLaunch? {
      ChainLedger(s, step, t);
    }
  }

  // ---------------------------------------------------------------- bindings

  ghost predicate LaunchesKept(s: State, t: State) {
    forall p <- s.launches :: p in t.launches && t.launches[p].pumpMint == s.launches[p].pumpMint
  }

  lemma PetsAfterBind(s: State, kolOwner: Address, pumpMint: Address, kolName: Bytes32, t: State)
    requires BindingOk(s) && Bound(s, kolOwner, pumpMint, kolName, t)
    ensures forall p <- t.pets :: p == PetPda(t.pets[p].owner, t.pets[p].kolName)
  {
  }

  lemma LaunchesAfterBind(s: State, kolOwner: Address, pumpMint: Address, kolName: Bytes32, t: State)
    requires BindingOk(s) && Bound(s, kolOwner, pumpMint, kolName, t)
    ensures LaunchesKept(s, t) && forall p <- t.launches :: t.launches[p].pet == p && p in t.pets
  {
  }

  lemma BindingAfterBind(s: State, kolOwner: Address, pumpMint: Address, kolName: Bytes32, t: State)
    requires BindingOk(s) && Bound(s, kolOwner, pumpMint, kolName, t)
    ensures BindingOk(t) && LaunchesKept(s, t)
  {
    PetsAfterBind(s, kolOwner, pumpMint, kolName, t);
    LaunchesAfterBind(s, kolOwner, pumpMint, kolName, t);
  }

  lemma BindingAfterMint(s: State, pet: Address, nftMint: Address, t: State)
    requires BindingOk(s) && Minted(s, pet, nftMint, t)
    ensures BindingOk(t)
  {
  }

  lemma BindingAfterTake(s: State, a: TakeAccounts, t: State)
    requires BindingOk(s) && Captured(s, a, t)
    ensures BindingOk(t)
  {
  }

  lemma BindingAfterSettle(s: State, pet: Address, ata: Address, t: State)
    requires BindingOk(s) && Settled(s, pet, ata, t)
    ensures BindingOk(t)
  {
  }

  lemma BindingStep(s: State, step: Step, t: State)
    requires BindingOk(s) && Effect(s, step, t)
    ensures BindingOk(t) && LaunchesKept(s, t)
  {
    if step.TakeThrone? {
      BindingAfterTake(s, step.accounts, t);
    } else if step.SettleThrone? {
      BindingAfterSettle(s, step.pet, step.championAta, t);
    } else if step.MintKolNft? {
      BindingAfterMint(s, step.pet, step.nftMint, t);
    } else if step.BindLaunch? {
      BindingAfterBind(s, step.kolOwner, step.pumpMint, step.kolName, t);
    }
  }

  lemma BindingNext(s: State, step: Step)
    requires BindingOk(s)
    ensures BindingOk(Next(s, step)) && LaunchesKept(s, Next(s, step))
  {
    if TryStep(s, step).Success? {
      StepEffect(s, step, TryStep(s, step).value);
      BindingStep(s, step, TryStep(s, step).value);
    }
  }

  // ---------------------------------------------------------------- NFTs

  /** The escrow account keeps its owner, mint and missing delegate, and loses nothing. */
  ghost predicate EscrowKept(l: Ledger, l': Ledger, e: Address)
    requires e in l
  {
    && e in l' && l'[e].owner == l[e].owner && l'[e].mint == l[e].mint
    && l'[e].delegate == None && l'[e].amount >= l[e].amount
  }

  /** A king's NFT stays sound when its mint and escrow are kept and it stays claimed once claimed. */
  lemma NftKept(s: State, t: State, p: Address)
    requires p in s.kings && p in t.kings && NftOk(s, p)
    requires EscrowKept(s.ledger, t.ledger, s.kings[p].nftEscrowVault)
    requires s.kings[p].nftMint in t.mints && Shrunk(s.mints[s.kings[p].nftMint], t.mints[s.kings[p].nftMint])
    requires var k, k' := s.kings[p], t.kings[p];
             && k'.nftMint == k.nftMint && k'.nftEscrowVault == k.nftEscrowVault
             && k'.currentChampion.Key?
             && (k'.IsUnclaimed() ==> k.IsUnclaimed() && k'.settlesAtSlot == k.settlesAtSlot)
             && (k'.IsUnclaimed() <==> k'.currentChampion == SYSTEM_PROGRAM)
    ensures NftOk(t, p)
  {
  }

  /** A capture takes from an escrow only on its own first capture. */
  lemma NftAfterTake(s: State, a: TakeAccounts, t: State, p: Address)
    requires Captured(s, a, t) && p in s.kings && NftOk(s, p) && NftOk(s, a.pet)
    requires a.pet != p || !s.kings[p].IsUnclaimed()
    ensures NftOk(t, p)
  {
    assert EscrowKept(s.ledger, t.ledger, s.kings[p].nftEscrowVault);
    NftKept(s, t, p);
  }

  lemma NftAfterFirstTake(s: State, a: TakeAccounts, t: State)
    requires Captured(s, a, t) && NftOk(s, a.pet) && s.kings[a.pet].IsUnclaimed()
    ensures NftOk(t, a.pet)
  {
    assert a.escrowVault != a.nftAta;
  }

  lemma NftAfterSettle(s: State, pet: Address, ata: Address, t: State, p: Address)
    requires Settled(s, pet, ata, t) && p in s.kings && NftOk(s, p) && NftOk(s, pet)
    ensures NftOk(t, p)
  {
    assert ata != s.kings[p].nftEscrowVault;
    NftKept(s, t, p);
  }

  lemma NftAfterMint(s: State, pet: Address, nftMint: Address, t: State, p: Address)
    requires Minted(s, pet, nftMint, t) && p in t.kings && (p != pet ==> NftOk(s, p))
    ensures NftOk(t, p)
  {
    if p != pet {
      NftKept(s, t, p);
    }
  }

  /** Nobody but the escrow's own authority can touch it. */
  lemma NftAfterWallet(s: State, src: Address, t: State, p: Address)
    requires WalletEffect(s, src, t) && p in s.kings && NftOk(s, p)
    ensures NftOk(t, p)
  {
    assert src != s.kings[p].nftEscrowVault;
    NftKept(s, t, p);
  }

  lemma NftAfterChain(s: State, t: State, p: Address)
    requires ChainEffect(s, t) && p in s.kings && NftOk(s, p)
    ensures NftOk(t, p)
  {
    NftKept(s, t, p);
  }

  lemma NftAfterBind(s: State, kolOwner: Address, pumpMint: Address, kolName: Bytes32, t: State, p: Address)
    requires Bound(s, kolOwner, pumpMint, kolName, t) && p in s.kings && NftOk(s, p)
    ensures NftOk(t, p)
  {
    NftKept(s, t, p);
  }

  lemma NftStep(s: State, step: Step, t: State, p: Address)
    requires Effect(s, step, t) && p in t.kings
    requires forall q <- s.kings :: NftOk(s, q)
    ensures NftOk(t, p)
  {
    assert p in s.kings ==> NftOk(s, p);
    if step.TakeThrone? {
      if step.accounts.pet == p && s.kings[p].IsUnclaimed() {
        NftAfterFirstTake(s, step.accounts, t);
      } else {
        NftAfterTake(s, step.accounts, t, p);
      }
    } else if step.SettleThrone? {
      NftAfterSettle(s, step.pet, step.championAta, t, p);
    } else if step.MintKolNft? {
      NftAfterMint(s, step.pet, step.nftMint, t, p);
    } else if step.BindLaunch? {
      NftAfterBind(s, step.kolOwner, step.pumpMint, step.kolName, t, p);
    } else if IsWalletStep(step) {
      NftAfterWallet(s, ActsOn(step), t, p);
    } else {
      NftAfterChain(s, t, p);
    }
  }

  // ---------------------------------------------------------------- all together

  lemma SlotStep(s: State, step: Step, t: State)
    requires Effect(s, step, t)
    ensures s.slot <= t.slot && (s.slot <= U64_MAX ==> t.slot <= U64_MAX)
  {
  }

  lemma SafeAfter(s: State, step: Step, t: State)
    requires Safe(s) && Effect(s, step, t) && LedgerOk(t)
    ensures Safe(t)
  {
    BindingStep(s, step, t);
    SlotStep(s, step, t);
    forall p <- t.kings ensures NftOk(t, p) {
      NftStep(s, step, t, p);
    }
  }

  /** Every step, whoever takes it, keeps all of the above for all pets. */
  lemma SafeStep(s: State, step: Step)
    requires Safe(s)
    ensures Safe(Next(s, step))
  {
    if TryStep(s, step).Success? {
      var t := TryStep(s, step).value;
      StepEffect(s, step, t);
      LedgerStep(s, step, t);
      SafeAfter(s, step, t);
    }
  }

  lemma {:induction false} SafeRun(s: State, steps: seq<Step>)
    requires Safe(s)
    ensures Safe(Run(s, steps))
  {
    if steps != [] {
      SafeRun(s, steps[..|steps| - 1]);
      SafeStep(Run(s, steps[..|steps| - 1]), steps[|steps| - 1]);
    }
  }

  // ---------------------------------------------------------------- how kings change

  /** A king appears unclaimed, is captured, is settled, or stays as it is. */
  ghost predicate KingChange(s: State, t: State, p: Address) {
    p in t.kings ==>
      || (p in s.kings && t.kings[p] == s.kings[p])
      || (p !in s.kings && t.kings[p].IsUnclaimed() && !t.kings[p].settled)
      || (exists a: TakeAccounts :: a.pet == p && Captured(s, a, t))
      || (exists ata :: Settled(s, p, ata, t))
  }

  lemma KingAfterTake(s: State, a: TakeAccounts, t: State, p: Address)
    requires Captured(s, a, t)
    ensures (p in s.kings ==> p in t.kings) && KingChange(s, t, p)
  {
  }

  lemma KingAfterSettle(s: State, pet: Address, ata: Address, t: State, p: Address)
    requires Settled(s, pet, ata, t)
    ensures (p in s.kings ==> p in t.kings) && KingChange(s, t, p)
  {
  }

  lemma KingAfterMint(s: State, pet: Address, nftMint: Address, t: State, p: Address)
    requires Minted(s, pet, nftMint, t)
    ensures (p in s.kings ==> p in t.kings) && KingChange(s, t, p)
  {
  }

  lemma KingAfter(s: State, step: Step, t: State, p: Address)
    requires Effect(s, step, t)
    ensures (p in s.kings ==> p in t.kings) && KingChange(s, t, p)
  {
    if step.TakeThrone? {
      KingAfterTake(s, step.accounts, t, p);
    } else if step.SettleThrone? {
      KingAfterSettle(s, step.pet, step.championAta, t, p);
    } else if step.MintKolNft? {
      KingAfterMint(s, step.pet, step.nftMint, t, p);
    }
  }

  lemma {:induction false} KingStep(s: State, step: Step, p: Address)
    requires BindingOk(s)
    ensures p in s.kings ==> p in Next(s, step).kings
    ensures KingChange(s, Next(s, step), p)
  {
    if TryStep(s, step).Success? {
      StepEffect(s, step, TryStep(s, step).value);
      KingAfter(s, step, TryStep(s, step).value, p);
    }
  }
}
