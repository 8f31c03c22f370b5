# COLS verification

A Dafny model of the COLS program, its Merkle builders and its off-chain codecs, with proofs
about every run and every input. `dafny verify dfyconfig.toml` checks all of it.

## What is modelled

**Holder fees** (`HolderFees`, `FeeClaims`, `FeeCommits`, `FeePayouts`, `FeeProgram`, `Merkle`,
`MerkleShape`, `MerkleProofs`, `ProgramMerkle`, `HarnessMerkle`, `SdkMerkle`). An oracle commits one Merkle root per epoch; holders claim
lamports from a shared vault with an inclusion proof, and each claim opens a receipt. The
hash is a parameter about which nothing is assumed. A digest has 32 octets and an input any
number, so collisions exist for every hash and "there is a collision" would say nothing.
Soundness is therefore stated with a function, `Merkle.Descend`: from the tree, the claimed
leaf and an accepted proof it computes either membership or two particular preimages, hashed
by the builder and by the verifier, that collide. `FeePayouts.Audit` runs that function over
all paid claims of a run. The main results are the payout bound, conservation, and solvency
in any order; they hold for roots made by the program's builder and by the SDK's.

**The throne** (`Token`, `Throne`, `ThroneSafety`, `ThroneChronicle`, `ThroneCustody`,
`ThroneExact`, `ThroneProgram`). Binding, minting, capturing and settling over an SPL token ledger, for all
pets at once, interleaved with the clock and with wallets that create mints, open, close and
hand over token accounts, mint, burn, transfer, approve, revoke and change mint authorities.
Each step is first reduced to what it did (`ThroneSafety.Effect`), and the invariants are
proved of that. Who may revoke a delegation is a parameter (`RevokeRule`):
the SPL rule accepts the owner only. Derived addresses are an inductive datatype, so they are
injective and no wallet can sign for them. `Safe` (ledger, binding and NFT invariants) holds
at `Genesis`, where nothing exists yet, and after every step of every run.

In both state machines an instruction is a function from a state to a new state or an error
(`ClaimHolderFees`, `DoTakeThrone`, ...). The classes `FeeProgram.Accounts` and
`ThroneProgram.Accounts` execute the handlers statement by statement on mutable accounts and
are proved to compute those functions, including the error and the rollback of a failed
transaction. Account constraints, which are declarations in the source, are functions that both
share (`CheckTakeAccounts`, ...); `ThroneSafety.TakeShape` and `ThroneCustody.CaptureExact` say
what they amount to. The theorems are about runs of those functions.

**Codecs** (`Bytes`, `Borsh`, `BorshIo`, `Decoders`, `Layouts`, `Lamports`, `KolNames`, with
`Trim`): the borsh writer and reader, the account decoders of the SDK and the CLI, SOL
amounts as decimal strings, fixed-width names.

**The vanity grinder** (`VanityGrinder`): worker threads over a flag, a counter and a mutex-guarded
slot, one shared access per step, under an arbitrary scheduler.

`Wrappers` (options and results) and `Sums` (sums over finite maps) are auxiliary.

## Where the code and its documentation differ

The model follows the code.

- The SDK hashes an unpaired node with itself (`sdk/src/merkle.ts:54`) but leaves it out of
  the proof (`sdk/src/merkle.ts:70`), so a leaf with an unpaired node on its path does not
  verify, contrary to `sdk/test/merkle.test.ts:56-63` and `docs/distributions.md:67-71`.
  `MerkleShape.SdkProofExact` is the exact condition, `MerkleShape.SdkFiveLeavesFails` the
  concrete case, `FeePayouts.SdkClaimExact` what it means for a claim. The SDK's root is the
  program's root only for power-of-two leaf counts (`MerkleShape.RootsAgreeExact`).
- `settle_throne` signs `Revoke` with the king, which is only the delegate
  (`programs/cols/src/instructions/settle_throne.rs:74-105`). Under the SPL owner-only rule no
  throne is ever settled (`ThroneCustody.OwnerOnlyNeverSettles`), although
  `docs/throne.md:54` says that any call after the deadline succeeds.
  `ThroneCustody.SettleExact` is the exact condition under both rules.
- The CLI decoders require that every octet is consumed, but the program allocates reserved
  octets (and eight octets more than it needs for a launch), so they reject every account the
  program creates (`Decoders.CliRejectsOnChainAccounts`).
- A second claim fails in Anchor's `init`, before the handler runs, so `AlreadyClaimed` is
  never returned (`docs/distributions.md:99` says that it is). A claim for an epoch without a
  distribution fails when Anchor loads the account, and on an existing one the constraint at
  `programs/cols/src/instructions/claim_holder_fees.rs:36` always holds, so `EpochNotCommitted`
  is never returned either (`docs/distributions.md:146`). Likewise the zero-balance check
  of `take_throne` comes after `balance > champion_balance` and cannot fail; the model has
  neither error.
- The comment on `settle_throne`'s mint account speaks of a cross-check
  (`programs/cols/src/instructions/settle_throne.rs:51-52`); there is none, and any mint passes
  (`ThroneCustody.SettleExact`).
- `kol_name_to_string` says that it strips trailing zeros but cuts at the first zero
  (`KolNames.CliNameExact` says when this is the same).
- `docs/throne.md:119` says that a champion who revoked the delegation can restore it by running
  `take_throne` again. The transfer to oneself still needs the king as delegate, so that fails
  like every other capture (`ThroneCustody.RevokedMeansStuck`); only the
  owner's own signature on that account helps.
- `docs/throne.md:22` and `docs/throne.md:39` name the king as the escrow's authority; it is a
  separate address derived from the king
  (`programs/cols/src/instructions/mint_kol_nft.rs:79-92`).

## Model

| member | source | states |
|---|---|---|
| ProgramMerkle.ComputeDistributionLeaf | programs/cols/src/utils.rs:53-59 | the 48-octet buffer filled in place is holder, epoch and amount, and the result is its hash |
| ProgramMerkle.HashPairInBuffer | programs/cols/src/utils.rs:228-238 | the 64-octet buffer holds the two digests in ascending order |
| ProgramMerkle.VerifyMerkleProof | programs/cols/src/utils.rs:66-80 | accepts exactly when folding the proof, of any length, into the leaf gives the root |
| ProgramMerkle.BuildTree | programs/cols/src/utils.rs:186-206 | terminates with all carry-up levels, leaves first, and with none for no leaves |
| ProgramMerkle.TreeRoot | programs/cols/src/utils.rs:209-211 | the root, exactly for non-empty lists |
| ProgramMerkle.ProofForLeaf | programs/cols/src/utils.rs:214-226 | the existing siblings from the leaf up, for any index and any list |
| ProgramMerkle.ProveAndVerify | programs/cols/src/utils.rs:248-258 | proof building and verification compose to success for every leaf of every list |
| Merkle.Soundness | programs/cols/src/utils.rs:61-80 | an accepted proof of any length leads to a tip with the claimed preimage at a depth equal to its length, or exhibits two distinct equal-digest preimages, one hashed by the builder and one by the verifier |
| Merkle.DistributionSoundness | programs/cols/src/utils.rs:53-80 | a leaf that verifies against a list's root is in the list, or an explicit collision is computed; under the duplicating rule the proof length is forced |
| Merkle.RootIsTreeHash | programs/cols/src/utils.rs:186-211 | the level-by-level root equals the hash of the recursively defined tree, for both odd-level rules |
| Merkle.Locate | programs/cols/src/utils.rs:193-204 | every tip of the built tree comes from a given node, and with duplication all tips have the same depth |
| Merkle.Completeness | programs/cols/src/utils.rs:186-226 | folding a carry-up proof from any index of any non-empty list gives the root, with odd levels anywhere |
| MerkleProofs.AcceptedIsFullProof | programs/cols/src/utils.rs:61-80 | a proof that verifies a leaf is, entry by entry, the builder's full proof of a position at which the list has that leaf, or an explicit collision is computed; for both odd-level rules |
| MerkleProofs.ProofIsUnique | programs/cols/src/utils.rs:61-80 | for distinct leaves exactly one proof verifies a given leaf, short of an explicit collision: the builder's full proof |
| Merkle.NodePreimageOrder | programs/cols/src/utils.rs:228-238 | of two children that first differ at octet k, the one with the smaller octet there fills the first 32 octets, whichever was given first |
| Merkle.NodePreimageInjective | programs/cols/src/utils.rs:228-238 | a sorted pair determines its children up to order |
| Merkle.LeafPreimageLayout | programs/cols/src/utils.rs:53-58 | octets 0 to 31 are the holder, 32 to 39 denote the epoch and 40 to 47 the amount, little-endian |
| Merkle.LeafPreimageInjective | programs/cols/src/utils.rs:48-59 | a leaf preimage determines holder, epoch and amount |
| MerkleShape.LevelSizes | programs/cols/src/utils.rs:186-206 | level k has ceil(n / 2^k) nodes, the number of levels is the height plus one, the last level is the root |
| MerkleShape.HeightIsCeilLog2 | programs/cols/src/utils.rs:193-204 | the height is the base-two logarithm rounded up |
| MerkleShape.ProofLength | programs/cols/src/utils.rs:214-226 | a proof has at most that many entries, and exactly that many if and only if no node on the path is unpaired |
| MerkleShape.AllPairedByLevel | sdk/src/merkle.ts:67-74 | the recursive pairing condition is that ancestor i / 2^k of the ceil(n / 2^k) nodes of each level has a sibling |
| MerkleShape.SdkProofExact | sdk/src/merkle.ts:49-76 | the SDK's proof for a leaf verifies if, and short of an explicit collision only if, every node on its path has a sibling |
| MerkleShape.SdkFiveLeavesFails | sdk/test/merkle.test.ts:56-63 | leaf 4 of any five leaves does not verify, short of an explicit collision |
| MerkleShape.SdkAllVerify | sdk/src/merkle.ts:42-79 | all leaves verify when their number is a power of two |
| MerkleShape.SdkAllVerifyOnly | sdk/src/merkle.ts:42-79 | otherwise the last leaf does not, short of an explicit collision |
| MerkleShape.PaddedCompleteness | sdk/src/merkle.ts:54-72 | had the proof contained the unpaired node itself, every leaf of every list would verify |
| MerkleShape.RulesAgreeOnPowersOfTwo | sdk/src/merkle.ts:49-75 | for a power of two the SDK's and the program's levels, root and proofs coincide |
| MerkleShape.RootsAgreeExact | sdk/src/merkle.ts:49-61 | the two roots agree if, and short of an explicit collision only if, the number of leaves is a power of two |
| HarnessMerkle.HashLeaf | tests/utils/merkle.ts:23-34 | fails exactly outside the u64 range, otherwise the program's leaf hash |
| HarnessMerkle.NewMerkleTree | tests/utils/merkle.ts:46-65 | fails exactly on no leaves; its layers are the program builder's levels |
| HarnessMerkle.HarnessRoot | tests/utils/merkle.ts:67-69 | its root is the program builder's root |
| HarnessMerkle.MerkleTree.ProofFor | tests/utils/merkle.ts:71-86 | fails exactly out of range; otherwise the program builder's proof |
| HarnessMerkle.VerifyProof | tests/utils/merkle.ts:107-117 | accepts exactly what the program accepts |
| SdkMerkle.HashLeaf | sdk/src/merkle.ts:17-23 | fails exactly on negative numbers; the program's leaf hash for u64 numbers, and larger numbers are hashed modulo 2^64 |
| SdkMerkle.BuildMerkleTree | sdk/src/merkle.ts:42-79 | fails exactly on no leaves or a negative number; the root of the duplicating rule; each holder is filed with the proof of the holder's last leaf and nobody else is |
| SdkMerkle.BuildLayers | sdk/src/merkle.ts:47-61 | the layer loop computes all levels of the duplicating rule and their root |
| SdkMerkle.ProofFromLayers | sdk/src/merkle.ts:64-74 | the proof loop collects the existing siblings only |
| SdkMerkle.VerifyProof | sdk/src/merkle.ts:86-96 | accepts exactly when the folded proof equals the root |
| Bytes.U64LeBytes | sdk/src/util.ts:95-106 | fails exactly on negative input; otherwise the low eight octets, least significant first |
| Bytes.ReadU64Le | sdk/src/util.ts:111-117 | the number that the eight octets at the offset denote |
| Bytes.U64RoundTrip | sdk/src/util.ts:95-117 | reading what was written gives the value modulo 2^64 |
| Bytes.LeBytesOfValue | sdk/src/util.ts:95-117 | writing what was read gives the octets back |
| Bytes.CompareBytes | sdk/src/util.ts:170-178 | the difference of the first octets that differ, or of the lengths if one is a prefix of the other; its sign is the lexicographic order |
| Bytes.LexFirstDifference | programs/cols/src/utils.rs:66-80 | the order: a prefix comes first, otherwise the smaller octet at the first difference decides |
| Bytes.LeBytesAt | sdk/src/util.ts:95-106 | octet k of a word counts 256^k |
| Bytes.LexTotal | sdk/src/util.ts:166-178 | that order is total and antisymmetric |
| FeeProgram.Accounts.CommitHandler | programs/cols/src/instructions/commit_distribution_root.rs:15-67 | the in-place handler computes the commit function, or fails with its error |
| FeeCommits.CommitExact | programs/cols/src/instructions/commit_distribution_root.rs:15-54 | a commit succeeds exactly when the oracle signs, the epoch is new and the pool positive; then the new entry holds the given epoch, root, pool and slot and nothing else changes; otherwise which error it gives |
| FeeCommits.DistributionsAreCommitted | programs/cols/src/instructions/commit_distribution_root.rs:21-54 | every distribution of a run was committed by a step of that run, signed by the oracle, exactly as it stands |
| FeeCommits.CommittedStaysBuilt | programs/cols/src/instructions/commit_distribution_root.rs:28-54 | once the oracle has committed a builder's root, the epoch is built from that list in every continuation, which is what the payout bound and solvency ask for |
| FeeProgram.Accounts.ClaimHandler | programs/cols/src/instructions/claim_holder_fees.rs:18-137 | opening the receipt, debiting, crediting and filling the receipt in that order computes the claim function, or fails with its error |
| FeeProgram.Accounts.Execute | programs/cols/src/instructions/claim_holder_fees.rs:66-137 | a transaction either has the function's whole effect or none |
| FeeProgram.Accounts.ExecuteAll | programs/cols/src/instructions/claim_holder_fees.rs:66-137 | any list of transactions computes the run that the theorems are about |
| FeeClaims.ClaimExact | programs/cols/src/instructions/claim_holder_fees.rs:32-120 | a claim succeeds exactly when the epoch is committed, no receipt exists, the amount is positive and in the vault, and the proof reaches the root; then exactly the vault, the holder and one receipt change, by exactly the amount |
| FeeClaims.ClaimErrors | programs/cols/src/instructions/claim_holder_fees.rs:40-96 | a claim that fails gives the error of the first of these conditions that does not hold |
| FeePayouts.PayoutBound | programs/cols/src/instructions/claim_holder_fees.rs:66-120 | over every interleaving of commits, deposits and claims with arbitrary proofs, the lamports paid for an epoch never exceed the sum of its leaf amounts, or the audit of the run computes a collision |
| FeePayouts.AuditSound | programs/cols/src/instructions/claim_holder_fees.rs:82-87 | either the audit's two preimages collide or every receipt of the epoch is a leaf of the list |
| FeePayouts.GrantedBound | programs/cols/src/instructions/claim_holder_fees.rs:44-51 | receipts, at most one per holder and epoch, that are all in the list sum to at most the list's total |
| FeePayouts.Solvency | programs/cols/src/instructions/claim_holder_fees.rs:72-111 | if the vault received the totals of all committed epochs, then in every reachable state, whatever was claimed before and in whatever order, every unclaimed leaf can be claimed with its full proof, or the audit of some committed epoch computes a collision |
| FeePayouts.SdkClaimExact | sdk/src/merkle.ts:49-76 | for an epoch committed with the SDK's root, a claim with the SDK's proof succeeds if every node on the path has a sibling, and otherwise fails with InvalidProof, short of an explicit collision |
| HolderFees.VaultConservation | programs/cols/src/instructions/claim_holder_fees.rs:89-120 | in every run the vault and the receipts together, and the vault and the wallets together, account for every lamport deposited |
| HolderFees.WalletGains | programs/cols/src/instructions/claim_holder_fees.rs:98-120 | in every run each wallet gains exactly the sum of its own receipts |
| HolderFees.ReceiptsRecordPayments | programs/cols/src/instructions/claim_holder_fees.rs:113-120 | the receipts of an epoch, or of all, sum to what the successful claims paid |
| HolderFees.SingleClaim | programs/cols/src/instructions/claim_holder_fees.rs:40-51 | no run has two successful claims for the same holder and epoch |
| HolderFees.RecordsArePermanent | programs/cols/src/instructions/commit_distribution_root.rs:28-50 | roots and receipts never change or vanish once created |
| FeeCommits.OneRootPerEpoch | programs/cols/src/instructions/commit_distribution_root.rs:21-35 | once an epoch has a root, every later commit for it fails, in every continuation of the run |
| Token.TransferExact | programs/cols/src/instructions/take_throne.rs:136-184 | exactly when the token program transfers, and the error of each way to fail |
| Token.TransferEffect | programs/cols/src/instructions/take_throne.rs:136-184 | a transfer needs equal mints and funds, moves exactly the amount, consumes a delegate's allowance and changes no other account; to itself it changes nothing |
| Token.TransferConserves | programs/cols/src/instructions/take_throne.rs:173-183 | a transfer changes the supply of no mint |
| Token.OnlyHolder | programs/cols/src/instructions/mint_kol_nft.rs:125-141 | if a mint's balances sum to one, the account that holds a token holds the only one |
| ThroneProgram.Accounts.BindLaunchHandler | programs/cols/src/instructions/bind_launch.rs:14-125 | the in-place handler computes the bind function, or fails with its error |
| ThroneProgram.Accounts.MintKolNftHandler | programs/cols/src/instructions/mint_kol_nft.rs:25-205 | the same for minting: constraints, then creation and handler |
| ThroneProgram.Accounts.CreateAndMint | programs/cols/src/instructions/mint_kol_nft.rs:68-204 | creating mint and escrow, minting one token and initialising the king, in that order, computes the mint function |
| ThroneProgram.Accounts.TakeThroneHandler | programs/cols/src/instructions/take_throne.rs:21-240 | the same for a capture: transfer, approval, then the king field by field |
| ThroneProgram.Accounts.SettleThroneHandler | programs/cols/src/instructions/settle_throne.rs:15-124 | the same for a settlement |
| ThroneProgram.Accounts.RevokeAndSettle | programs/cols/src/instructions/settle_throne.rs:57-124 | its three guards, the revocation and the update of the king compute the settle function |
| ThroneProgram.Accounts.Execute | programs/cols/src/instructions/take_throne.rs:109-240 | a transaction either has the function's whole effect or none |
| ThroneSafety.TakeShape | programs/cols/src/instructions/take_throne.rs:109-239 | everything a successful capture required and left behind: one token of one mint moved, the new delegation, the new record, the event, and nothing else; the debited account holds the king's NFT mint although only the transfer rule checks it |
| ThroneSafety.SafeStep | programs/cols/src/instructions/take_throne.rs:109-240 | every instruction and every wallet operation by anybody keeps the supplies, the bindings and, for all pets, the NFT mint and the escrow |
| ThroneSafety.SafeRun | programs/cols/src/instructions/take_throne.rs:109-240 | so does every run, with wallets free to create mints, open, close and hand over accounts, mint, burn, transfer, approve, revoke and change mint authorities |
| ThroneSafety.KingStep | programs/cols/src/state/king.rs:54-79 | a king appears unclaimed, is captured, is settled, or stays as it is; it never disappears |
| ThroneChronicle.ChronicledRun | programs/cols/src/instructions/take_throne.rs:111-237 | over every run each throne's record is the one its events determine: unclaimed and without deadline exactly before any capture, one deadline at the first capture plus 1,512,000, all captures before it, strictly rising balances, saturated take-over count, at most one settlement and not before the deadline |
| ThroneChronicle.BoundedCaptures | programs/cols/src/instructions/take_throne.rs:121-126 | there are at most as many captures as the champion's balance has units, and the count is exact up to saturation at 2^32 - 1 |
| ThroneChronicle.CaptureMeasure | programs/cols/src/instructions/take_throne.rs:203-206 | 2^64 - 1 minus the champion's balance decreases with every capture |
| ThroneChronicle.CaptureExcludesSettlement | programs/cols/src/instructions/settle_throne.rs:59-69 | no state lets a throne be both captured and settled |
| ThroneChronicle.SettledForever | programs/cols/src/instructions/take_throne.rs:111 | nothing that happens later changes a settled king |
| ThroneChronicle.SlotHelpersAgree | programs/cols/src/utils.rs:284-291 | the saturating helpers agree with the handler on every successful capture |
| ThroneChronicle.BindingPermanent | programs/cols/src/instructions/bind_launch.rs:90-108 | a pet's memecoin never changes once bound |
| ThroneExact.BindExact | programs/cols/src/instructions/bind_launch.rs:60-124 | a bind fails exactly without the oracle's signature or when it would change a bound mint, with which error; it fills in a new pet, keeps an old one, sets the launch's slot and touches nothing else |
| ThroneChronicle.PetPermanent | programs/cols/src/instructions/bind_launch.rs:67-88 | a pet's owner, name and first slot never change, however often it is bound again |
| ThroneExact.MintExact | programs/cols/src/instructions/mint_kol_nft.rs:25-204 | a king's NFT is minted exactly when the oracle signs, the pet is bound to a mint other than the default key and has no king, the NFT's mint is a fresh key that signs, its escrow address is free, and name, symbol and URI have at most 32, 10 and 200 octets; and the error of each way to fail once the accounts are right |
| ThroneExact.DeadlineExact | programs/cols/src/instructions/take_throne.rs:208-212 | a first deadline is 1,512,000 slots ahead, and fails exactly above slot 18,446,744,073,708,039,615 |
| ThroneExact.SlotHelpersExact | programs/cols/src/utils.rs:284-291 | the helpers in numbers: the first saturates at 2^64 - 1 where the handler fails |
| ThroneExact.EnvironmentExact | docs/throne.md:44-48 | when each step of a wallet or the clock succeeds and exactly what it changes, so that the theorems about all runs range over all of it |
| ThroneChronicle.CapturesCompareOneMint | programs/cols/src/instructions/take_throne.rs:56-67 | all captures of one throne compare balances of one mint, which is not the default key |
| ThroneCustody.NftSupplyAtMostOne | programs/cols/src/instructions/mint_kol_nft.rs:125-141 | in every run the balances of each king's NFT mint sum to at most one |
| ThroneCustody.NftSupplyIsOne | programs/cols/src/instructions/mint_kol_nft.rs:125-141 | in every run they sum to exactly one until somebody succeeds in burning that very token, with wallets free to do and try everything else |
| ThroneCustody.NftMintsDiffer | programs/cols/src/instructions/mint_kol_nft.rs:65-75 | two kings never share an NFT mint |
| ThroneCustody.Isolation | programs/cols/src/instructions/take_throne.rs:91-104 | every step by anybody, whatever accounts are passed, leaves a pet's king, memecoin, NFT mint and all accounts of that mint as they were, unless it captures or settles that very pet or is a wallet operation on an account of its NFT mint |
| ThroneCustody.CustodyRun | programs/cols/src/instructions/take_throne.rs:133-200 | for each pet, in every run in which no owner of the account that holds that pet's NFT itself operates on it before that pet is settled, whatever others do or try, there or elsewhere: while claimed and unsettled its NFT is in an account of the champion, delegated to that king for one |
| ThroneCustody.ExactlyOneHolder | programs/cols/src/instructions/take_throne.rs:133-200 | the escrow of an unclaimed throne, or the champion's account of a claimed one, has amount one and every other account of that mint has zero |
| ThroneCustody.CaptureExact | programs/cols/src/instructions/take_throne.rs:21-218 | in every state any run reaches, a capture succeeds exactly when the accounts are the pet's and the challenger's own, the throne is not settled, the window is open, the balance is strictly larger, a first deadline fits in a u64, and a later capture's source is the champion's, holds the NFT and is still delegated to the king; the champion may retake from itself |
| ThroneCustody.CaptureErrors | programs/cols/src/instructions/take_throne.rs:111-212 | with the right accounts, which error a failed capture gives |
| ThroneCustody.NftMovable | programs/cols/src/instructions/take_throne.rs:133-184 | the NFT can be moved exactly from the escrow before the first capture and afterwards from such an account |
| ThroneCustody.QuietCaptureExact | programs/cols/src/instructions/take_throne.rs:109-218 | after every such run, with the account that holds the NFT passed for the previous champion, a capture succeeds exactly when the throne is not settled, the window is open, the balance is strictly larger and a first deadline fits in a u64 |
| ThroneCustody.HolderExists | programs/cols/src/instructions/take_throne.rs:152-200 | after every such run a claimed and unsettled throne has an account of the champion from which it can be recaptured |
| ThroneCustody.SettleExact | programs/cols/src/instructions/settle_throne.rs:15-107 | a settlement succeeds exactly when the oracle signs, the account is the champion's and of the NFT mint, the throne is claimed, not settled, at or past its deadline, the revoke rule accepts a delegate, and the king is the account's delegate; with the right accounts, which error it gives otherwise |
| ThroneCustody.SettlementProgress | programs/cols/src/instructions/settle_throne.rs:57-107 | under that rule, from any state in which the champion holds the NFT, waiting for the deadline and settling succeeds and clears the delegation |
| ThroneCustody.OwnerOnlyNeverSettles | programs/cols/src/instructions/settle_throne.rs:74-105 | under the owner-only rule no run settles any throne |
| ThroneCustody.SettledMeansOwned | docs/throne.md:59 | after settlement the record is final and the NFT, the only one of its mint, stays in the champion's account in every run until its owner itself operates on that account, even if the king is still delegated there |
| ThroneCustody.SettlesForGood | docs/throne.md:50-59 | after every run in which the champions leave the NFT alone, under the rule that lets a delegate revoke, a claimed and unsettled throne can be settled by waiting for the deadline, and the NFT then stays with the champion in every continuation until the champion itself operates on the account |
| ThroneCustody.RevokedMeansStuck | docs/throne.md:48 | once the champion's account has no delegate, no capture of that pet succeeds with any accounts, the champion's own included, in every run until the owner itself operates on that account |
| ThroneCustody.SettlementParks | programs/cols/src/instructions/settle_throne.rs:94-107 | a settlement leaves the NFT where the champion holds it, out of the king's reach |
| Borsh.RoundTripExact | sdk/src/borsh.ts:10-179 | reading a written value of any supported type, whatever follows, gives it back and leaves the rest, if and only if the value fits its width |
| Borsh.EncodingLayout | sdk/src/borsh.ts:14-71 | every octet of every encoding: little-endian words of 1, 4 and 8 octets, 1 and 0 for booleans, four octets of length or count in front of strings and vectors, item k at 4 + 32 k |
| Borsh.ReadBack | sdk/src/borsh.ts:29-40 | larger integers come back modulo their width, a u64 modulo 2^64 |
| Borsh.DecodeExact | sdk/src/borsh.ts:98-179 | the reader accepts only encodings: writing what was read gives the octets consumed |
| Borsh.RecordRoundTrip | sdk/src/borsh.ts:10-179 | whole records round-trip for every schema |
| Borsh.EncodingsAreDistinct | sdk/src/borsh.ts:10-92 | two records of one schema never share an encoding, nor is one a prefix of the other |
| BorshIo.BorshWriter.U32 | sdk/src/borsh.ts:20-27 | appends the four octets of the value modulo 2^32 |
| BorshIo.BorshWriter.U64 | sdk/src/borsh.ts:29-40 | fails exactly on negative input and then writes nothing; otherwise appends eight octets |
| BorshIo.BorshWriter.VecBytes32 | sdk/src/borsh.ts:65-71 | fails exactly if some item is not 32 octets long; appends the count and the items up to the first such item, or all of them |
| BorshIo.BorshWriter.ToBuffer | sdk/src/borsh.ts:77-85 | one array with all chunks in order, sized by the running total |
| BorshIo.BorshReader.Word | sdk/src/borsh.ts:103-130 | the next little-endian word, advancing by its width, or no movement at all |
| BorshIo.BorshReader.VecBytes32 | sdk/src/borsh.ts:159-166 | reads exactly what the specification decoder reads, or fails when it does |
| BorshIo.BorshReader.ReadAll | sdk/src/borsh.ts:98-179 | the same for a record, field by field |
| BorshIo.WriteAndReadBack | sdk/src/borsh.ts:10-179 | writer and reader compose to the identity on every in-range record, with nothing remaining |
| Decoders.MatchDiscriminator | sdk/src/discriminators.ts:62-75 | holds exactly for buffers that start with the eight octets |
| Decoders.SdkDecode | sdk/src/decoder.ts:27-130 | strips the discriminator and reads the fields, leaving what follows |
| Decoders.DecodeColsAccount | sdk/src/decoder.ts:136-156 | with distinct discriminators, finds the one kind as which the buffer decodes |
| Decoders.DecodersAgree | cli/src/borsh_codec.rs:77-143 | for every buffer, the strict decoder returns given fields exactly when the SDK decoder returns them with nothing left, and exactly when the buffer is the discriminator and their encoding |
| Decoders.SdkReadsOnChainAccounts | programs/cols/src/state/king.rs:41-48 | the SDK decoder returns the written fields of every account of allocated size, whatever its reserved and slack octets |
| Decoders.CliRejectsOnChainAccounts | cli/src/borsh_codec.rs:101-143 | the strict decoder rejects every such account |
| Decoders.FieldWidths | programs/cols/src/state/launch.rs:34-37 | discriminator, fields and reserved octets make up the allocated size of every account except a launch, which has eight to spare |
| Decoders.SizesAre | programs/cols/src/state/king.rs:46-48 | the allocated and reserved sizes in numbers, 172 and 5 octets for a king |
| Decoders.CliErrors | cli/src/borsh_codec.rs:77-107 | which error the strict decoder gives |
| Layouts.DataLayout | programs/cols/src/state/king.rs:15-43 | in the data of every account of all six kinds each field stands in its own place: for a king the keys at 8, 40, 72 and 104, balance at 136, last slot at 144, take-overs at 152, bumps at 156 and 157, deadline at 158, the settled flag at 166 |
| Layouts.DataEnds | programs/cols/src/state/king.rs:46-48 | the discriminator comes first and nothing lies between the fields and what follows them |
| Layouts.NamedWritten | programs/cols/src/state/king.rs:15-43 | naming the values that the program writes gives the account back, for all six kinds |
| Layouts.SdkReadsAccount | sdk/src/decoder.ts:80-96 | the SDK decoder turns an account's data, with anything behind it, into that account's values |
| Layouts.SdkReadsNothingElse | sdk/src/decoder.ts:16-130 | whatever it decodes is the data of the account it returns |
| Layouts.DecodeAccount | sdk/src/decoder.ts:136-156 | with distinct discriminators, the dispatching decoder returns an account if and only if the buffer is that account's data, and then each field is what stands at its place in the buffer |
| Layouts.CliReadsExactly | cli/src/borsh_codec.rs:109-143 | the strict decoder returns an account's fields exactly when nothing follows them |
| Layouts.DataDetermines | programs/cols/src/state/king.rs:13-43 | different accounts of one kind never have the same data |
| Lamports.PrintThenParse | sdk/src/util.ts:9-34 | parsing what was printed gives the number back, for every integer |
| Lamports.ParseThenPrint | sdk/src/util.ts:9-34 | a parsed string prints as itself exactly when it is canonical; what it prints as is canonical and has the same value |
| Lamports.PrintedIsCanonical | sdk/src/util.ts:26-34 | no superfluous zero, no dot without digits, no negative zero |
| Lamports.AcceptsExactly | sdk/src/util.ts:11-13 | the parser accepts exactly an optional minus sign, digits, and optionally a dot and digits |
| Lamports.ParsedValue | sdk/src/util.ts:14-19 | and reads them as 1,000,000,000 times the whole part plus the fraction in billionths, negated after a minus sign |
| Lamports.ShortFraction | sdk/src/util.ts:17 | a fraction of at most nine digits counts billionths exactly |
| Lamports.LongFraction | sdk/src/util.ts:5-8 | a longer one is truncated, never rounded |
| KolNames.PackKolName | programs/cols/src/utils.rs:17-24 | fails exactly above 32 octets; otherwise the name and zeros |
| KolNames.UnpackKolName | programs/cols/src/utils.rs:85-91 | the loop drops the trailing zeros and nothing else |
| KolNames.UnpackPackExact | sdk/src/util.ts:57-78 | a packed name comes back exactly when it does not end in a zero octet |
| KolNames.PackCollision | programs/cols/src/utils.rs:17-24 | two names share a buffer, and so a pet address, exactly when they differ in trailing zeros only |
| KolNames.CliNameExact | cli/src/borsh_codec.rs:146-149 | cutting at the first zero agrees with stripping trailing zeros exactly when no zero precedes another octet |
| VanityGrinder.WinnerIsFinal | cli/src/cmd/grind.rs:98-115 | in any interleaving of any number of workers the slot is written at most once, with a matching key |
| VanityGrinder.MutualExclusion | cli/src/cmd/grind.rs:104-111 | at most one worker is inside the mutex |
| VanityGrinder.KeysWereDrawn | cli/src/cmd/grind.rs:99-111 | the winner, and every key in a worker's hands, was drawn in a turn of that run |
| VanityGrinder.CounterExact | cli/src/cmd/grind.rs:101-127 | in any interleaving the counter is, modulo 2^64, the number of keys drawn less those not yet counted; at exit, the number of keys drawn |
| VanityGrinder.FirstHitWins | cli/src/cmd/grind.rs:98-115 | one worker stops at the first matching key, leaves it in the slot, and has counted it and all before it |
| VanityGrinder.FoundImpliesFilled | cli/src/cmd/grind.rs:98-115 | the flag, or any exited worker, implies a matching key in the slot |
| VanityGrinder.TakeAfterJoin | cli/src/cmd/grind.rs:119-137 | after joining all of at least one worker the take succeeds |
| VanityGrinder.StopsWithinOneIteration | cli/src/cmd/grind.rs:98-115 | once the flag is set, each worker makes at most the steps that remain of one iteration |
| VanityGrinder.NoDeadlock | cli/src/cmd/grind.rs:98-115 | unless all workers have exited, some worker can take a step |
| VanityGrinder.Terminates | cli/src/cmd/grind.rs:98-137 | once the flag is set, every schedule that gives turns only to workers able to move has at most six turns per worker and cannot be continued exactly when all have exited; then the take succeeds |
| VanityGrinder.CanFinish | cli/src/cmd/grind.rs:98-124 | every such schedule can be continued to one after which all workers have exited |

## Left out

- Rent, transaction fees, account sizes and the rent-exempt minimum of the vault.
- Program address derivation, bumps and the hashing of discriminators: addresses are injective terms, discriminators a parameter.
- Keccak-256 itself: the hash is an arbitrary function from octets to 32 octets.
- The order in which Anchor reports several violated constraints at once, beyond the order of the declarations.
- Overflow of a claiming wallet's balance at 2^64 lamports, and what wallets do with lamports outside claims.
- `initialize_config`: the oracle is fixed, and fee bounds are a single comparison.
- Freezing (the king is the NFT's freeze authority and never uses it), close authorities other than the owner, multisignature owners, wrapped SOL accounts, and giving up a mint authority altogether. Accounts of the System Program or the incinerator, which anybody may burn from, are operated with those owners' keys.
- Metaplex metadata; the length limits of the metadata strings are modelled.
- Launch reserves and volumes as state: no instruction updates them after initialisation; they are fields in `Layouts`.
- UTF-8: names and strings are octets. The SOL parser is modelled for string input, not for numbers printed by JavaScript.
- JavaScript's 32-bit `index ^ 1`: leaf indices are below 2^31.
- `bytesEqual` is equality; its constant running time is not modelled. Error texts are not modelled.
- Decoders.SdkDecode: one reader loop over the field list of a kind stands for the six functions, which read the same fields in the order of the list.
- Weak memory, mutex poisoning and the probability of finding a key in the grinder; its steps are sequentially consistent.
- RPC, key files, command-line parsing, output, the oracle service and the watcher.
