/**
 The throne as a state machine: binding a launch, minting the king NFT, capturing and
 settling, interleaved with the clock and with what wallets may do on the token ledger:
 create mints, open, close and hand over accounts, mint, burn, transfer, approve, revoke and
 change mint authorities. All pets share one state.

 Launch and king accounts are derived from the pet, so they are map entries under its
 address. An instruction that fails leaves the state as it was.
*/
module Throne {
  import opened Bytes
  import opened Token
  import opened Wrappers

  const THRONE_SETTLEMENT_SLOTS: nat := 1_512_000
  const NFT_SUPPLY: nat := 1
  const KOL_NAME_LEN: nat := 32
  const MAX_METADATA_NAME_LEN: nat := 32
  const MAX_METADATA_SYMBOL_LEN: nat := 10
  const MAX_METADATA_URI_LEN: nat := 200

  datatype Error =
    | Unauthorized | OracleMismatch | NotTopHolder | SettlementPeriodEnded | AlreadySettled
    | SettlementNotReady | MissingPrevChampionAta | NameTooLong | UriTooLong
    | SymbolTooLong | BondingCurveNotInitialized | PetMismatch | MintMismatch | AtaOwnerMismatch
    | MissingSignature | AccountNotInitialized | AccountInUse | ClockOverflow
    | TokenProgram(error: TokenError)

  datatype Pet = Pet(owner: Address, kolName: Bytes32, bondedAt: nat)

  datatype Launch = Launch(pet: Address, pumpMint: Address, bondedSlot: nat)

  datatype KingOfHill = KingOfHill(
    pet: Address,
    nftMint: Address,
    nftEscrowVault: Address,
    currentChampion: Address,
    championBalance: nat,
    lastCapturedSlot: nat,
    takeOvers: nat,
    settlesAtSlot: nat,
    settled: bool)
  {
    predicate IsUnclaimed() {
      currentChampion == SYSTEM_PROGRAM && takeOvers == 0
    }
  }

  datatype Event =
    | LaunchBound(pet: Address, kolOwner: Address, pumpMint: Address, bondedSlot: nat)
    | KingMinted(pet: Address, nftMint: Address, escrowVault: Address, slot: nat)
    | ThroneCaptured(pet: Address, newChampion: Address, previousChampion: Address, championBalance: nat,
                     takeOvers: nat, slot: nat, firstCapture: bool, settlesAtSlot: nat)
    | ThroneSettled(pet: Address, finalChampion: Address, takeOvers: nat, slot: nat)

  datatype State = State(
    rule: RevokeRule,
    oracle: Address,
    slot: nat,
    mints: map<Address, Mint>,
    ledger: Ledger,
    pets: map<Address, Pet>,
    launches: map<Address, Launch>,
    kings: map<Address, KingOfHill>,
    log: seq<Event>)

  /** The accounts that a `take_throne` transaction passes in. */
  datatype TakeAccounts = TakeAccounts(
    challenger: Address,
    pet: Address,
    pumpMint: Address,
    pumpAta: Address,
    nftMint: Address,
    escrowVault: Address,
    nftAta: Address,
    prevAta: Address)

  datatype Step =
    // program instructions
    | BindLaunch(signer: Address, kolOwner: Address, pumpMint: Address, kolName: Bytes32)
    | MintKolNft(signer: Address, pet: Address, nftMint: Address, name: Octets, symbol: Octets, uri: Octets)
    | TakeThrone(accounts: TakeAccounts)
    | SettleThrone(signer: Address, pet: Address, championAta: Address, nftMint: Address)
    // the rest of the chain
    | AdvanceSlots(slots: nat)
    | CreateMint(mint: Address, authority: Address)
    | OpenAccount(id: Address, owner: Address, mint: Address)
    | MintTokens(signer: Address, to: Address, amount: nat)
    | TransferTokens(signer: Address, from: Address, to: Address, amount: nat)
    | ApproveDelegate(signer: Address, account: Address, delegate: Address, amount: nat)
    | RevokeDelegate(signer: Address, account: Address)
    | BurnTokens(signer: Address, account: Address, amount: nat)
    | CloseAccount(signer: Address, account: Address)
    | SetAccountOwner(signer: Address, account: Address, owner: Address)
    | SetMintAuthority(signer: Address, mint: Address, authority: Address)

  /** Instructions of the program itself. */
  predicate IsProgramStep(step: Step) {
    step.BindLaunch? || step.MintKolNft? || step.TakeThrone? || step.SettleThrone?
  }

  /** Operations that a wallet authorises on one existing token account. */
  predicate IsWalletStep(step: Step) {
    || step.TransferTokens? || step.ApproveDelegate? || step.RevokeDelegate?
    || step.BurnTokens? || step.CloseAccount? || step.SetAccountOwner?
  }

  /** That account; a transfer acts on the account it debits. */
  function ActsOn(step: Step): Address
    requires IsWalletStep(step)
  {
    if step.TransferTokens? then step.from else step.account
  }

  // ---------------------------------------------------------------- helpers

  /** A call into the token program: its error becomes the instruction's. */
  function Cpi(r: Result<Ledger, TokenError>): Result<Ledger, Error> {
    match r
    case Success(l) => Success(l)
    case Failure(e) => Failure(TokenProgram(e))
  }

  /** Only a key can sign a transaction. */
  function Signed(signer: Address): Result<(), Error> {
    Require(signer.Key?, MissingSignature)
  }

  /** `slots::settles_at`: saturating. */
  function SettlesAt(firstCaptureSlot: nat): nat {
    var sum := firstCaptureSlot + THRONE_SETTLEMENT_SLOTS;
    if sum <= U64_MAX then sum else U64_MAX
  }

  /** `slots::is_window_over` */
  predicate IsWindowOver(now: nat, settlesAtSlot: nat) {
    settlesAtSlot != 0 && now >= settlesAtSlot
  }

  /** `checked_add` of the settlement window. */
  function Deadline(now: nat): Result<nat, Error> {
    var sum := now + THRONE_SETTLEMENT_SLOTS;
    if sum <= U64_MAX then Success(sum) else Failure(SettlementNotReady)
  }

  /** `check_metadata_lengths` */
  function CheckMetadataLengths(name: Octets, symbol: Octets, uri: Octets): Result<(), Error> {
    var _ :- Require(|name| <= MAX_METADATA_NAME_LEN, NameTooLong);
    var _ :- Require(|symbol| <= MAX_METADATA_SYMBOL_LEN, SymbolTooLong);
    Require(|uri| <= MAX_METADATA_URI_LEN, UriTooLong)
  }

  /** The pet account is the one derived from its own owner and name. */
  function CheckPet(s: State, pet: Address): Result<(), Error> {
    Require(pet in s.pets && pet == PetPda(s.pets[pet].owner, s.pets[pet].kolName), AccountNotInitialized)
  }

  function CheckLaunch(s: State, pet: Address): Result<(), Error> {
    var _ :- Require(pet in s.launches, AccountNotInitialized);
    Require(s.launches[pet].pet == pet, PetMismatch)
  }

  function CheckKing(s: State, pet: Address): Result<(), Error> {
    var _ :- Require(pet in s.kings, AccountNotInitialized);
    Require(s.kings[pet].pet == pet, PetMismatch)
  }

  // ---------------------------------------------------------------- bind_launch

  /** A fresh pet account, all zeros, is filled in; an existing one must be the same pet's. */
  function BindPet(s: State, id: Address, kolOwner: Address, kolName: Bytes32): Result<Pet, Error> {
    var pet := if id in s.pets then s.pets[id] else Pet(SYSTEM_PROGRAM, seq(KOL_NAME_LEN, _ => 0), 0);
    if pet.owner == SYSTEM_PROGRAM then Success(Pet(kolOwner, kolName, s.slot))
    else
      var _ :- Require(pet.owner == kolOwner, Unauthorized);
      var _ :- Require(pet.kolName == kolName, NameTooLong);
      Success(pet)
  }

  /** A fresh launch account is filled in; on an existing one only the slot is refreshed. */
  function BindMint(s: State, id: Address, pumpMint: Address): Result<Launch, Error> {
    var launch := if id in s.launches then s.launches[id] else Launch(SYSTEM_PROGRAM, SYSTEM_PROGRAM, 0);
    if launch.pet == SYSTEM_PROGRAM then Success(Launch(id, pumpMint, s.slot))
    else
      var _ :- Require(launch.pet == id, PetMismatch);
      var _ :- Require(launch.pumpMint == pumpMint, MintMismatch);
      Success(launch.(bondedSlot := s.slot))
  }

  function DoBindLaunch(s: State, signer: Address, kolOwner: Address, pumpMint: Address, kolName: Bytes32)
    : Result<State, Error>
  {
    var _ :- Signed(signer);
    var _ :- Require(signer == s.oracle, OracleMismatch);
    var id := PetPda(kolOwner, kolName);
    var pet :- BindPet(s, id, kolOwner, kolName);
    var launch :- BindMint(s, id, pumpMint);
    Success(s.(pets := s.pets[id := pet],
               launches := s.launches[id := launch],
               log := s.log + [LaunchBound(id, kolOwner, pumpMint, s.slot)]))
  }

  // ---------------------------------------------------------------- mint_kol_nft

  function EscrowVault(pet: Address, nftMint: Address): Address {
    Ata(EscrowPda(KingPda(pet)), nftMint)
  }

  /** `KingOfHill::initialize` */
  function NewKing(pet: Address, nftMint: Address, escrow: Address): KingOfHill {
    KingOfHill(pet, nftMint, escrow, SYSTEM_PROGRAM, 0, 0, 0, 0, false)
  }

  /** The account constraints that come before the new accounts are created. */
  function CheckMintAccounts(s: State, signer: Address, pet: Address, nftMint: Address): Result<(), Error> {
    var _ :- Signed(signer);
    var _ :- Require(signer == s.oracle, OracleMismatch);
    var _ :- CheckPet(s, pet);
    var _ :- CheckLaunch(s, pet);
    var _ :- Require(pet !in s.kings, AccountInUse);
    var _ :- Signed(nftMint);
    Require(nftMint !in s.mints && nftMint !in s.ledger && nftMint != SYSTEM_PROGRAM, AccountInUse)
  }

  /** Creates the mint and the escrow account, and runs the handler. */
  function MintToEscrow(s: State, pet: Address, nftMint: Address, name: Octets, symbol: Octets, uri: Octets)
    : Result<State, Error>
    requires pet in s.launches
  {
    var escrow := EscrowVault(pet, nftMint);
    var created :- Cpi(Open(s.ledger, escrow, EscrowPda(KingPda(pet)), nftMint));
    var _ :- CheckMetadataLengths(name, symbol, uri);
    var _ :- Require(s.launches[pet].pumpMint != SYSTEM_PROGRAM, BondingCurveNotInitialized);
    var minted :- Cpi(Credit(created, escrow, nftMint, NFT_SUPPLY));
    Success(s.(mints := s.mints[nftMint := Mint(KingPda(pet), NFT_SUPPLY)],
               ledger := minted,
               kings := s.kings[pet := NewKing(pet, nftMint, escrow)],
               log := s.log + [KingMinted(pet, nftMint, escrow, s.slot)]))
  }

  function DoMintKolNft(s: State, signer: Address, pet: Address, nftMint: Address,
                        name: Octets, symbol: Octets, uri: Octets)
    : Result<State, Error>
  {
    var _ :- CheckMintAccounts(s, signer, pet, nftMint);
    MintToEscrow(s, pet, nftMint, name, symbol, uri)
  }

  // ---------------------------------------------------------------- take_throne

  /** The account constraints, in declaration order. */
  function CheckTakeAccounts(s: State, a: TakeAccounts): Result<(), Error> {
    var _ :- Signed(a.challenger);
    var _ :- CheckPet(s, a.pet);
    var _ :- CheckLaunch(s, a.pet);
    var _ :- CheckKing(s, a.pet);
    var king, l := s.kings[a.pet], s.ledger;
    var _ :- Require(a.pumpMint in s.mints, AccountNotInitialized);
    var _ :- Require(a.pumpMint == s.launches[a.pet].pumpMint, MintMismatch);
    var _ :- Require(a.pumpAta in l, AccountNotInitialized);
    var _ :- Require(l[a.pumpAta].owner == a.challenger, AtaOwnerMismatch);
    var _ :- Require(l[a.pumpAta].mint == a.pumpMint, MintMismatch);
    var _ :- Require(a.nftMint in s.mints, AccountNotInitialized);
    var _ :- Require(a.nftMint == king.nftMint, MintMismatch);
    var _ :- Require(a.escrowVault in l, AccountNotInitialized);
    var _ :- Require(a.escrowVault == king.nftEscrowVault, MintMismatch);
    var _ :- Require(a.nftAta in l, AccountNotInitialized);
    var _ :- Require(l[a.nftAta].owner == a.challenger, AtaOwnerMismatch);
    var _ :- Require(l[a.nftAta].mint == a.nftMint, MintMismatch);
    Require(a.prevAta in l, AccountNotInitialized)
  }

  /** Out of escrow on the first capture, afterwards out of the previous champion's account. */
  function MoveNft(s: State, a: TakeAccounts, king: KingOfHill): Result<Ledger, Error>
    requires a.prevAta in s.ledger
  {
    if king.IsUnclaimed() then
      Cpi(Transfer(s.ledger, a.escrowVault, a.nftAta, EscrowPda(KingPda(a.pet)), 1))
    else
      var prev := s.ledger[a.prevAta];
      var _ :- Require(a.prevAta != a.escrowVault, MissingPrevChampionAta);
      var _ :- Require(prev.owner == king.currentChampion, AtaOwnerMismatch);
      var _ :- Require(prev.amount >= 1, MissingPrevChampionAta);
      Cpi(Transfer(s.ledger, a.prevAta, a.nftAta, KingPda(a.pet), 1))
  }

  function SaturatingInc(n: nat): nat {
    if n < U32_MAX then n + 1 else U32_MAX
  }

  function DoTakeThrone(s: State, a: TakeAccounts): Result<State, Error> {
    var _ :- CheckTakeAccounts(s, a);
    var king := s.kings[a.pet];
    var _ :- Require(!king.settled, SettlementPeriodEnded);
    var _ :- Require(!(king.settlesAtSlot != 0 && s.slot >= king.settlesAtSlot), SettlementPeriodEnded);
    var balance := s.ledger[a.pumpAta].amount;
    // The handler also rejects a zero balance, which can no longer be the case here.
    var _ :- Require(balance > king.championBalance, NotTopHolder);
    var moved :- MoveNft(s, a, king);
    var approved :- Cpi(Approve(moved, a.nftAta, KingPda(a.pet), a.challenger, 1));
    var deadline :- if king.IsUnclaimed() then Deadline(s.slot) else Success(king.settlesAtSlot);
    var _ :- Require(a.challenger != SYSTEM_PROGRAM, AtaOwnerMismatch);
    var king' := king.(currentChampion := a.challenger,
                       championBalance := balance,
                       lastCapturedSlot := s.slot,
                       takeOvers := SaturatingInc(king.takeOvers),
                       settlesAtSlot := deadline);
    Success(s.(ledger := approved,
               kings := s.kings[a.pet := king'],
               log := s.log + [ThroneCaptured(a.pet, a.challenger, king.currentChampion, balance, king'.takeOvers,
                                              s.slot, king.IsUnclaimed(), deadline)]))
  }

  // ---------------------------------------------------------------- settle_throne

  /** The account constraints, in declaration order. */
  function CheckSettleAccounts(s: State, signer: Address, pet: Address, championAta: Address, nftMint: Address)
    : Result<(), Error>
  {
    var _ :- Signed(signer);
    var _ :- Require(signer == s.oracle, OracleMismatch);
    var _ :- CheckPet(s, pet);
    var _ :- CheckKing(s, pet);
    var _ :- Require(championAta in s.ledger, AccountNotInitialized);
    var _ :- Require(s.ledger[championAta].owner == s.kings[pet].currentChampion, AtaOwnerMismatch);
    var _ :- Require(s.ledger[championAta].mint == s.kings[pet].nftMint, MintMismatch);
    Require(nftMint in s.mints, AccountNotInitialized)
  }

  /** The handler's own requirements on the record and the clock. */
  function CheckSettleable(king: KingOfHill, now: nat): Result<(), Error> {
    var _ :- Require(!king.settled, AlreadySettled);
    var _ :- Require(king.settlesAtSlot != 0, SettlementNotReady);
    Require(now >= king.settlesAtSlot, SettlementNotReady)
  }

  /** The handler, once the accounts have passed. */
  function Settle(s: State, pet: Address, championAta: Address): Result<State, Error>
    requires pet in s.kings
  {
    var king := s.kings[pet];
    var _ :- CheckSettleable(king, s.slot);
    var revoked :- Cpi(Revoke(s.rule, s.ledger, championAta, KingPda(pet)));
    Success(s.(ledger := revoked,
               kings := s.kings[pet := king.(settled := true)],
               log := s.log + [ThroneSettled(pet, king.currentChampion, king.takeOvers, s.slot)]))
  }

  function DoSettleThrone(s: State, signer: Address, pet: Address, championAta: Address, nftMint: Address)
    : Result<State, Error>
  {
    var _ :- CheckSettleAccounts(s, signer, pet, championAta, nftMint);
    Settle(s, pet, championAta)
  }

  // ---------------------------------------------------------------- the rest of the chain

  function DoAdvanceSlots(s: State, slots: nat): Result<State, Error> {
    var _ :- Require(s.slot + slots <= U64_MAX, ClockOverflow);
    Success(s.(slot := s.slot + slots))
  }

  function DoCreateMint(s: State, mint: Address, authority: Address): Result<State, Error> {
    var _ :- Signed(mint);
    var _ :- Require(mint !in s.mints && mint !in s.ledger && mint != SYSTEM_PROGRAM, AccountInUse);
    Success(s.(mints := s.mints[mint := Mint(authority, 0)]))
  }

  /** A token account lives at a fresh key or at its owner's associated address. */
  function DoOpenAccount(s: State, id: Address, owner: Address, mint: Address): Result<State, Error> {
    var _ :- Require(id.Key? || id == Ata(owner, mint), MissingSignature);
    var _ :- Require(mint in s.mints, AccountNotInitialized);
    var _ :- Require(id !in s.mints && id != SYSTEM_PROGRAM, AccountInUse);
    var created :- Cpi(Open(s.ledger, id, owner, mint));
    Success(s.(ledger := created))
  }

  function DoMintTokens(s: State, signer: Address, to: Address, amount: nat): Result<State, Error> {
    var _ :- Signed(signer);
    var _ :- Require(to in s.ledger && s.ledger[to].mint in s.mints, AccountNotInitialized);
    var m := s.ledger[to].mint;
    var _ :- Require(s.mints[m].authority == signer, TokenProgram(OwnerMismatch));
    var _ :- Require(s.mints[m].supply + amount <= U64_MAX, TokenProgram(Overflow));
    var credited :- Cpi(Credit(s.ledger, to, m, amount));
    Success(s.(mints := s.mints[m := s.mints[m].(supply := s.mints[m].supply + amount)], ledger := credited))
  }

  function DoWalletOperation(s: State, signer: Address, r: Result<Ledger, TokenError>): Result<State, Error> {
    var _ :- Signed(signer);
    var ledger :- Cpi(r);
    Success(s.(ledger := ledger))
  }

  function DoBurnTokens(s: State, signer: Address, account: Address, amount: nat): Result<State, Error> {
    var _ :- Require(account in s.ledger && s.ledger[account].mint in s.mints, AccountNotInitialized);
    var m := s.ledger[account].mint;
    var _ :- Require(s.mints[m].supply >= amount, TokenProgram(Overflow));
    var u :- DoWalletOperation(s, signer, Burn(s.ledger, account, signer, amount));
    Success(u.(mints := s.mints[m := s.mints[m].(supply := s.mints[m].supply - amount)]))
  }

  function DoSetMintAuthority(s: State, signer: Address, mint: Address, authority: Address): Result<State, Error> {
    var _ :- Signed(signer);
    var _ :- Require(mint in s.mints, AccountNotInitialized);
    var _ :- Require(s.mints[mint].authority == signer, TokenProgram(OwnerMismatch));
    Success(s.(mints := s.mints[mint := s.mints[mint].(authority := authority)]))
  }

  // ---------------------------------------------------------------- runs

  function TryStep(s: State, step: Step): Result<State, Error> {
    match step
    case BindLaunch(signer, kolOwner, pumpMint, kolName) => DoBindLaunch(s, signer, kolOwner, pumpMint, kolName)
    case MintKolNft(signer, pet, nftMint, name, symbol, uri) => DoMintKolNft(s, signer, pet, nftMint, name, symbol, uri)
    case TakeThrone(a) => DoTakeThrone(s, a)
    case SettleThrone(signer, pet, ata, nftMint) => DoSettleThrone(s, signer, pet, ata, nftMint)
    case AdvanceSlots(n) => DoAdvanceSlots(s, n)
    case CreateMint(mint, authority) => DoCreateMint(s, mint, authority)
    case OpenAccount(id, owner, mint) => DoOpenAccount(s, id, owner, mint)
    case MintTokens(signer, to, amount) => DoMintTokens(s, signer, to, amount)
    case TransferTokens(signer, from, to, amount) =>
      DoWalletOperation(s, signer, Transfer(s.ledger, from, to, signer, amount))
    case ApproveDelegate(signer, account, delegate, amount) =>
      DoWalletOperation(s, signer, Approve(s.ledger, account, delegate, signer, amount))
    case RevokeDelegate(signer, account) =>
      DoWalletOperation(s, signer, Revoke(s.rule, s.ledger, account, signer))
    case BurnTokens(signer, account, amount) => DoBurnTokens(s, signer, account, amount)
    case CloseAccount(signer, account) =>
      DoWalletOperation(s, signer, Close(s.ledger, account, signer))
    case SetAccountOwner(signer, account, owner) =>
      DoWalletOperation(s, signer, SetOwner(s.ledger, account, owner, signer))
    case SetMintAuthority(signer, mint, authority) => DoSetMintAuthority(s, signer, mint, authority)
  }

  /** One transaction: a failure is rolled back. */
  function Next(s: State, step: Step): State {
    match TryStep(s, step)
    case Success(t) => t
    case Failure(_) => s
  }

  function Run(s: State, steps: seq<Step>): State {
    if steps == [] then s else Next(Run(s, steps[..|steps| - 1]), steps[|steps| - 1])
  }

  /** Nothing exists yet. */
  function Genesis(rule: RevokeRule, oracle: Address, slot: nat): State {
    State(rule, oracle, slot, map[], map[], map[], map[], map[], [])
  }
}
