/**
 The throne instructions as the program executes them: token calls and account fields are
 updated in place, in the handlers' order, and the runtime restores the snapshot when a
 handler fails.
*/
module ThroneProgram {
  import opened Bytes
  import opened Token
  import opened Throne
  import opened Wrappers

  class Accounts {
    const rule: RevokeRule
    const oracle: Address
    var slot: nat
    var mints: map<Address, Mint>
    var ledger: Ledger
    var pets: map<Address, Pet>
    var launches: map<Address, Launch>
    var kings: map<Address, KingOfHill>
    var log: seq<Event>

    function View(): State
      reads this
    {
      State(rule, oracle, slot, mints, ledger, pets, launches, kings, log)
    }

    constructor (rule: RevokeRule, oracle: Address, slot: nat)
      ensures View() == Genesis(rule, oracle, slot)
    {
      this.rule, this.oracle, this.slot := rule, oracle, slot;
      mints, ledger, pets, launches, kings, log := map[], map[], map[], map[], map[], [];
    }

    /** A call into the token program: the ledger takes the result, or the error is returned. */
    method Invoke(r: Result<Ledger, TokenError>) returns (e: Result<(), Error>)
      modifies this`ledger
      ensures e.Success? <==> r.Success?
      ensures e.Success? ==> ledger == r.value
      ensures e.Failure? ==> ledger == old(ledger) && e == Failure(TokenProgram(r.error))
    {
      match r
      case Success(l) =>
        ledger := l;
        e := Success(());
      case Failure(err) =>
        e := Failure(TokenProgram(err));
    }

    /** `init_if_needed` on the pet: a new account is all zeros and is filled in. */
    method PetFor(id: Address, kolOwner: Address, kolName: Bytes32) returns (r: Result<Pet, Error>)
      ensures r == BindPet(View(), id, kolOwner, kolName)
    {
      var pet := if id in pets then pets[id] else Pet(SYSTEM_PROGRAM, seq(KOL_NAME_LEN, _ => 0), 0);
      if pet.owner == SYSTEM_PROGRAM {
        return Success(Pet(kolOwner, kolName, slot));
      }
      if pet.owner != kolOwner {
        return Failure(Unauthorized);
      }
      if pet.kolName != kolName {
        return Failure(NameTooLong);
      }
      r := Success(pet);
    }

    /** `init_if_needed` on the launch: filled in, or refreshed for the same mint only. */
    method LaunchFor(id: Address, pumpMint: Address) returns (r: Result<Launch, Error>)
      ensures r == BindMint(View(), id, pumpMint)
    {
      var launch := if id in launches then launches[id] else Launch(SYSTEM_PROGRAM, SYSTEM_PROGRAM, 0);
      if launch.pet == SYSTEM_PROGRAM {
        return Success(Launch(id, pumpMint, slot));
      }
      if launch.pet != id {
        return Failure(PetMismatch);
      }
      if launch.pumpMint != pumpMint {
        return Failure(MintMismatch);
      }
      r := Success(launch.(bondedSlot := slot));
    }

    /** `oracle_bind_pumpfun_launch` */
    method BindLaunchHandler(signer: Address, kolOwner: Address, pumpMint: Address, kolName: Bytes32)
      returns (r: Result<(), Error>)
      modifies this
      ensures r.Success? ==> DoBindLaunch(old(View()), signer, kolOwner, pumpMint, kolName) == Success(View())
      ensures r.Failure? ==> DoBindLaunch(old(View()), signer, kolOwner, pumpMint, kolName) == Failure(r.error)
    {
      if !signer.Key? {
        return Failure(MissingSignature);
      }
      if signer != oracle {
        return Failure(OracleMismatch);
      }
      var id := PetPda(kolOwner, kolName);
      var pet :- PetFor(id, kolOwner, kolName);
      var launch :- LaunchFor(id, pumpMint);
      pets := pets[id := pet];
      launches := launches[id := launch];
      log := log + [LaunchBound(id, kolOwner, pumpMint, slot)];
      r := Success(());
    }

    /** `mint_kol_nft`: the constraints on existing accounts, then the rest. */
    method MintKolNftHandler(signer: Address, pet: Address, nftMint: Address, name: Octets, symbol: Octets, uri: Octets)
      returns (r: Result<(), Error>)
      modifies this
      ensures r.Success? ==> DoMintKolNft(old(View()), signer, pet, nftMint, name, symbol, uri) == Success(View())
      ensures r.Failure? ==> DoMintKolNft(old(View()), signer, pet, nftMint, name, symbol, uri) == Failure(r.error)
    {
      var _ :- CheckMintAccounts(View(), signer, pet, nftMint);
      r := CreateAndMint(pet, nftMint, name, symbol, uri);
    }

    /** `init` of the mint and the escrow account, the token's minting, and the king's fields. */
    method CreateAndMint(pet: Address, nftMint: Address, name: Octets, symbol: Octets, uri: Octets)
      returns (r: Result<(), Error>)
      requires pet in launches
      modifies this
      ensures r.Success? ==> MintToEscrow(old(View()), pet, nftMint, name, symbol, uri) == Success(View())
      ensures r.Failure? ==> MintToEscrow(old(View()), pet, nftMint, name, symbol, uri) == Failure(r.error)
    {
      mints := mints[nftMint := Mint(KingPda(pet), 0)];
      var escrow := EscrowVault(pet, nftMint);
      var _ :- Invoke(Open(ledger, escrow, EscrowPda(KingPda(pet)), nftMint));
      var _ :- CheckMetadataLengths(name, symbol, uri);
      if launches[pet].pumpMint == SYSTEM_PROGRAM {
        return Failure(BondingCurveNotInitialized);
      }
      // the account is new and of this mint, so minting into it cannot fail
      ledger := Credit(ledger, escrow, nftMint, NFT_SUPPLY).value;
      mints := mints[nftMint := Mint(KingPda(pet), mints[nftMint].supply + NFT_SUPPLY)];
      assert mints == old(mints)[nftMint := Mint(KingPda(pet), NFT_SUPPLY)];
      kings := kings[pet := NewKing(pet, nftMint, escrow)];
      log := log + [KingMinted(pet, nftMint, escrow, slot)];
      r := Success(());
    }

    /**
     `take_throne`. The account constraints run before the handler and change nothing; they are
     evaluated on a snapshot by the function that also specifies them.
    */
    method TakeThroneHandler(a: TakeAccounts) returns (r: Result<(), Error>)
      modifies this
      ensures r.Success? ==> DoTakeThrone(old(View()), a) == Success(View())
      ensures r.Failure? ==> DoTakeThrone(old(View()), a) == Failure(r.error)
    {
      var _ :- CheckTakeAccounts(View(), a);
      var king := kings[a.pet];
      if king.settled {
        return Failure(SettlementPeriodEnded);
      }
      var now := slot;
      if king.settlesAtSlot != 0 && now >= king.settlesAtSlot {
        return Failure(SettlementPeriodEnded);
      }
      var challengerBalance := ledger[a.pumpAta].amount;
      if challengerBalance <= king.championBalance {
        return Failure(NotTopHolder);
      }
      var firstCapture := king.IsUnclaimed();
      var previousChampion := king.currentChampion;
      if firstCapture {
        var _ :- Invoke(Transfer(ledger, a.escrowVault, a.nftAta, EscrowPda(KingPda(a.pet)), 1));
      } else {
        if a.prevAta == a.escrowVault {
          return Failure(MissingPrevChampionAta);
        }
        if ledger[a.prevAta].owner != king.currentChampion {
          return Failure(AtaOwnerMismatch);
        }
        if ledger[a.prevAta].amount < 1 {
          return Failure(MissingPrevChampionAta);
        }
        var _ :- Invoke(Transfer(ledger, a.prevAta, a.nftAta, KingPda(a.pet), 1));
      }
      var _ :- Invoke(Approve(ledger, a.nftAta, KingPda(a.pet), a.challenger, 1));
      king := king.(currentChampion := a.challenger);
      king := king.(championBalance := challengerBalance);
      king := king.(lastCapturedSlot := now);
      king := king.(takeOvers := SaturatingInc(king.takeOvers));
      if firstCapture {
        var deadline :- Deadline(now);
        king := king.(settlesAtSlot := deadline);
      }
      if king.currentChampion == SYSTEM_PROGRAM {
        return Failure(AtaOwnerMismatch);
      }
      kings := kings[a.pet := king];
      log := log + [ThroneCaptured(a.pet, king.currentChampion, previousChampion, king.championBalance,
                                   king.takeOvers, now, firstCapture, king.settlesAtSlot)];
      r := Success(());
    }

    /** `settle_throne`: the constraints, then the handler. */
    method SettleThroneHandler(signer: Address, pet: Address, championAta: Address, nftMint: Address)
      returns (r: Result<(), Error>)
      modifies this
      ensures r.Success? ==> DoSettleThrone(old(View()), signer, pet, championAta, nftMint) == Success(View())
      ensures r.Failure? ==> DoSettleThrone(old(View()), signer, pet, championAta, nftMint) == Failure(r.error)
    {
      var _ :- CheckSettleAccounts(View(), signer, pet, championAta, nftMint);
      r := RevokeAndSettle(pet, championAta);
    }

    method RevokeAndSettle(pet: Address, championAta: Address) returns (r: Result<(), Error>)
      requires pet in kings
      modifies this
      ensures r.Success? ==> Settle(old(View()), pet, championAta) == Success(View())
      ensures r.Failure? ==> Settle(old(View()), pet, championAta) == Failure(r.error)
    {
      var king := kings[pet];
      if king.settled {
        return Failure(AlreadySettled);
      }
      if king.settlesAtSlot == 0 {
        return Failure(SettlementNotReady);
      }
      if slot < king.settlesAtSlot {
        return Failure(SettlementNotReady);
      }
      var _ :- Invoke(Revoke(rule, ledger, championAta, KingPda(pet)));
      king := king.(settled := true);
      kings := kings[pet := king];
      log := log + [ThroneSettled(pet, king.currentChampion, king.takeOvers, slot)];
      r := Success(());
    }

    /**
     Everything that is not this program: the clock, other mints, wallets. This is glue: the
     token program's steps have no other model here than their functions, so it stores what
     `TryStep` returns.
    */
    method EnvironmentStep(step: Step) returns (r: Result<(), Error>)
      requires !IsProgramStep(step)
      modifies this
      ensures r.Success? ==> TryStep(old(View()), step) == Success(View())
      ensures r.Failure? ==> TryStep(old(View()), step) == Failure(r.error)
    {
      var t :- TryStep(View(), step);
      slot, mints, ledger := t.slot, t.mints, t.ledger;
      r := Success(());
    }

    /** One transaction: dispatch, then roll back if the handler failed. */
    method Execute(step: Step) returns (r: Result<(), Error>)
      modifies this
      ensures View() == Next(old(View()), step)
      ensures r.Success? <==> TryStep(old(View()), step).Success?
      ensures r.Failure? ==> TryStep(old(View()), step) == Failure(r.error)
    {
      var slot0, mints0, ledger0 := slot, mints, ledger;
      var pets0, launches0, kings0, log0 := pets, launches, kings, log;
      if step.BindLaunch? {
        r := BindLaunchHandler(step.signer, step.kolOwner, step.pumpMint, step.kolName);
      } else if step.MintKolNft? {
        r := MintKolNftHandler(step.signer, step.pet, step.nftMint, step.name, step.symbol, step.uri);
      } else if step.TakeThrone? {
        r := TakeThroneHandler(step.accounts);
      } else if step.SettleThrone? {
        r := SettleThroneHandler(step.signer, step.pet, step.championAta, step.nftMint);
      } else {
        r := EnvironmentStep(step);
      }
      if r.Failure? {
        slot, mints, ledger := slot0, mints0, ledger0;
        pets, launches, kings, log := pets0, launches0, kings0, log0;
      }
    }
  }
}
