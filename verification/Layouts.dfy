/**
 The accounts by field name: what the program writes for each struct, and which field the
 off-chain decoders take each value for.
*/
module Layouts {
  import opened Bytes
  import opened Borsh
  import BorshIo
  import opened Decoders
  import opened Wrappers

  type U32 = x: int | 0 <= x <= U32_MAX

  datatype Account =
    | ConfigAccount(admin: Bytes32, oracle: Bytes32, feeBasisPoints: U32, bump: Byte)
    | PetAccount(owner: Bytes32, kolName: Bytes32, bondedAt: Bytes.U64, bump: Byte)
    | LaunchAccount(pet: Bytes32, pumpMint: Bytes32, bondedSlot: Bytes.U64, realSolReserve: Bytes.U64,
                    realTokenReserve: Bytes.U64, creatorFeesLamports: Bytes.U64, totalVolumeLamports: Bytes.U64,
                    graduated: bool, bump: Byte)
    | KingOfHillAccount(pet: Bytes32, nftMint: Bytes32, nftEscrowVault: Bytes32, currentChampion: Bytes32,
                        championBalance: Bytes.U64, lastCapturedSlot: Bytes.U64, takeOvers: U32, bump: Byte,
                        nftEscrowVaultBump: Byte, settlesAtSlot: Bytes.U64, settled: bool)
    | DistributionAccount(epoch: Bytes.U64, root: Bytes32, poolLamports: Bytes.U64, committedAt: Bytes.U64, bump: Byte)
    | HolderClaimAccount(holder: Bytes32, epoch: Bytes.U64, amountClaimed: Bytes.U64, claimedAtSlot: Bytes.U64,
                         bump: Byte)

  function KindOf(a: Account): Kind {
    match a
    case ConfigAccount(_, _, _, _) => Config
    case PetAccount(_, _, _, _) => Pet
    case LaunchAccount(_, _, _, _, _, _, _, _, _) => Launch
    case KingOfHillAccount(_, _, _, _, _, _, _, _, _, _, _) => KingOfHill
    case DistributionAccount(_, _, _, _, _) => Distribution
    case HolderClaimAccount(_, _, _, _, _) => HolderClaim
  }

  /** The program's side: the struct's fields in declaration order, before its reserved octets. */
  function Written(a: Account): seq<Val> {
    match a
    case ConfigAccount(admin, oracle, fee, bump) => [Fixed(admin), Fixed(oracle), Val.U32(fee), U8(bump)]
    case PetAccount(owner, name, at, bump) => [Fixed(owner), Fixed(name), Val.U64(at), U8(bump)]
    case LaunchAccount(pet, mint, slot, sol, token, fees, volume, graduated, bump) =>
      [Fixed(pet), Fixed(mint), Val.U64(slot), Val.U64(sol), Val.U64(token), Val.U64(fees), Val.U64(volume),
       Bool(graduated), U8(bump)]
    case KingOfHillAccount(pet, mint, escrow, champion, balance, last, takeOvers, bump, escrowBump, settlesAt, done) =>
      [Fixed(pet), Fixed(mint), Fixed(escrow), Fixed(champion), Val.U64(balance), Val.U64(last), Val.U32(takeOvers),
       U8(bump), U8(escrowBump), Val.U64(settlesAt), Bool(done)]
    case DistributionAccount(epoch, root, pool, at, bump) =>
      [Val.U64(epoch), Fixed(root), Val.U64(pool), Val.U64(at), U8(bump)]
    case HolderClaimAccount(holder, epoch, amount, slot, bump) =>
      [Fixed(holder), Val.U64(epoch), Val.U64(amount), Val.U64(slot), U8(bump)]
  }

  /** The decoders' side: the name under which each value read is returned. */
  function Named(k: Kind, vs: seq<Val>): Account
    requires HasAll(vs, Fields(k)) && AllInRange(vs)
  {
    match k
    case Config =>
      ConfigAccount(admin := vs[0].bytes, oracle := vs[1].bytes, feeBasisPoints := vs[2].n, bump := vs[3].n)
    case Pet =>
      PetAccount(owner := vs[0].bytes, kolName := vs[1].bytes, bondedAt := vs[2].n, bump := vs[3].n)
    case Launch =>
      LaunchAccount(pet := vs[0].bytes, pumpMint := vs[1].bytes, bondedSlot := vs[2].n, realSolReserve := vs[3].n,
                    realTokenReserve := vs[4].n, creatorFeesLamports := vs[5].n, totalVolumeLamports := vs[6].n,
                    graduated := vs[7].b, bump := vs[8].n)
    case KingOfHill =>
      KingOfHillAccount(pet := vs[0].bytes, nftMint := vs[1].bytes, nftEscrowVault := vs[2].bytes,
                        currentChampion := vs[3].bytes, championBalance := vs[4].n, lastCapturedSlot := vs[5].n,
                        takeOvers := vs[6].n, bump := vs[7].n, nftEscrowVaultBump := vs[8].n,
                        settlesAtSlot := vs[9].n, settled := vs[10].b)
    case Distribution =>
      DistributionAccount(epoch := vs[0].n, root := vs[1].bytes, poolLamports := vs[2].n, committedAt := vs[3].n,
                          bump := vs[4].n)
    case HolderClaim =>
      HolderClaimAccount(holder := vs[0].bytes, epoch := vs[1].n, amountClaimed := vs[2].n, claimedAtSlot := vs[3].n,
                         bump := vs[4].n)
  }

  /** Account data: discriminator, fields, and whatever reserved or slack octets follow. */
  function Data(d: Discriminators, a: Account, rest: Octets): Octets {
    d(KindOf(a)) + (EncodeAll(Written(a)) + rest)
  }

  lemma KingFits(a: Account)
    requires a.KingOfHillAccount?
    ensures HasAll(Written(a), Fields(KingOfHill)) && AllInRange(Written(a))
  {
  }

  lemma LaunchFits(a: Account)
    requires a.LaunchAccount?
    ensures HasAll(Written(a), Fields(Launch)) && AllInRange(Written(a))
  {
  }

  lemma WrittenFits(a: Account)
    ensures HasAll(Written(a), Fields(KindOf(a))) && AllInRange(Written(a))
  {
    if a.KingOfHillAccount? {
      KingFits(a);
    } else if a.LaunchAccount? {
      LaunchFits(a);
    }
  }

  /** Both sides use the same order and widths: no field is taken for another. */
  lemma {:induction false} NamedWritten(a: Account)
    ensures HasAll(Written(a), Fields(KindOf(a))) && AllInRange(Written(a))
    ensures Named(KindOf(a), Written(a)) == a
  {
    WrittenFits(a);
  }

  lemma KingNamed(vs: seq<Val>)
    requires HasAll(vs, Fields(KingOfHill)) && AllInRange(vs)
    ensures Written(Named(KingOfHill, vs)) == vs
  {
  }

  lemma WrittenNamed(k: Kind, vs: seq<Val>)
    requires HasAll(vs, Fields(k)) && AllInRange(vs)
    ensures KindOf(Named(k, vs)) == k && Written(Named(k, vs)) == vs
  {
    if k.KingOfHill? {
      KingNamed(vs);
    }
  }

  /** What the SDK decoder makes of any account's data is that account. */
  lemma SdkReadsAccount(d: Discriminators, a: Account, rest: Octets)
    ensures SdkDecoded(d, KindOf(a), Data(d, a, rest)) == Some(Parsed(Written(a), rest))
  {
    var data := Data(d, a, rest);
    NamedWritten(a);
    assert data[..DISCRIMINATOR_LEN] == d(KindOf(a));
    assert data[DISCRIMINATOR_LEN..] == EncodeAll(Written(a)) + rest;
    RecordRoundTrip(Written(a), Fields(KindOf(a)), rest);
  }

  /** ... and it makes an account of nothing else. */
  lemma SdkReadsNothingElse(d: Discriminators, k: Kind, buf: Octets)
    requires SdkDecoded(d, k, buf).Some?
    ensures var Parsed(vs, rest) := SdkDecoded(d, k, buf).value;
            && HasAll(vs, Fields(k)) && AllInRange(vs)
            && KindOf(Named(k, vs)) == k && buf == Data(d, Named(k, vs), rest)
  {
    var Parsed(vs, rest) := SdkDecoded(d, k, buf).value;
    RecordExact(Fields(k), buf[DISCRIMINATOR_LEN..]);
    WrittenNamed(k, vs);
    assert buf == buf[..DISCRIMINATOR_LEN] + buf[DISCRIMINATOR_LEN..];
  }

  /** `decodeColsAccount` with named fields: it returns an account exactly when the buffer is its data. */
  method DecodeAccount(d: Discriminators, buf: Octets) returns (r: Option<Account>)
    ensures r.Some? ==> Describes(r.value, buf) && exists rest :: buf == Data(d, r.value, rest)
    ensures Distinct(d) ==> forall a, rest :: buf == Data(d, a, rest) ==> r == Some(a)
  {
    var found := DecodeColsAccount(d, buf);
    if Distinct(d) {
      forall a, rest | buf == Data(d, a, rest) ensures found == Some((KindOf(a), Written(a))) {
        SdkReadsAccount(d, a, rest);
      }
    }
    if found == None {
      return None;
    }
    var (k, vs) := found.value;
    SdkReadsNothingElse(d, k, buf);
    forall a | KindOf(a) == k && Written(a) == vs ensures Named(k, vs) == a {
      NamedWritten(a);
    }
    r := Some(Named(k, vs));
    DataLayout(d, r.value, SdkDecoded(d, k, buf).value.rest);
  }

  /** The strict decoder returns an account's fields exactly when nothing follows them. */
  lemma CliReadsExactly(d: Discriminators, a: Account, raw: Octets)
    ensures CliDecode(d, KindOf(a), raw) == Success(Written(a)) <==> raw == Data(d, a, [])
  {
    NamedWritten(a);
    DecodersAgree(d, KindOf(a), raw, Written(a));
    assert EncodeAll(Written(a)) + [] == EncodeAll(Written(a));
  }

  /** Different accounts of one kind never have the same data, whatever follows their fields. */
  lemma DataDetermines(d: Discriminators, a: Account, b: Account, rest: Octets, more: Octets)
    requires KindOf(a) == KindOf(b) && Data(d, a, rest) == Data(d, b, more)
    ensures a == b && rest == more
  {
    SdkReadsAccount(d, a, rest);
    SdkReadsAccount(d, b, more);
    NamedWritten(a);
    NamedWritten(b);
  }

  // ---------------------------------------------------------------- offsets

  /** Where field `i` of a record starts. */
  function Offset(schema: seq<Ty>, i: nat): nat
    requires i <= |schema|
  {
    if i == 0 then 0 else Offset(schema, i - 1) + Width(schema[i - 1])
  }

  lemma EncodedFieldWidth(v: Val, ty: Ty)
    requires v.Has(ty) && ty != TString && ty != TVec32
    ensures |Encode(v)| == Width(ty)
  {
  }

  lemma Skip(b: Octets, n: nat, i: nat, j: nat)
    requires n <= i <= j <= |b|
    ensures b[i..j] == b[n..][i - n..j - n]
  {
  }

  /** Field `i` of a record occupies the octets from its offset on. */
  lemma {:induction false} FieldAt(vs: seq<Val>, schema: seq<Ty>, i: nat)
    requires HasAll(vs, schema) && TString !in schema && TVec32 !in schema && i < |vs|
    ensures Offset(schema, i) + Width(schema[i]) <= |EncodeAll(vs)|
    ensures EncodeAll(vs)[Offset(schema, i)..Offset(schema, i) + Width(schema[i])] == Encode(vs[i])
  {
    var at := PrefixEnd(vs, schema, i);
    EncodedFieldWidth(vs[i], schema[i]);
    SplitAt(vs, i);
    var front, own, more := EncodeAll(vs[..i]), Encode(vs[i]), EncodeAll(vs[i + 1..]);
    ThreeSlices(front, own, more);
  }

  lemma {:induction false} PrefixEnd(vs: seq<Val>, schema: seq<Ty>, i: nat) returns (at: nat)
    requires HasAll(vs, schema) && TString !in schema && TVec32 !in schema && i <= |vs|
    ensures at == Offset(schema, i) == |EncodeAll(vs[..i])|
  {
    if i == 0 {
      at := 0;
    } else {
      at := PrefixEnd(vs, schema, i - 1);
      EncodedFieldWidth(vs[i - 1], schema[i - 1]);
      assert vs[..i] == vs[..i - 1] + [vs[i - 1]];
      BorshIo.EncodeAllAppend(vs[..i - 1], vs[i - 1]);
      at := at + Width(schema[i - 1]);
    }
  }

  lemma {:induction false} SplitAt(vs: seq<Val>, i: nat)
    requires i < |vs|
    ensures EncodeAll(vs) == EncodeAll(vs[..i]) + Encode(vs[i]) + EncodeAll(vs[i + 1..])
  {
    if i == 0 {
      assert EncodeAll(vs[..0]) == [];
    } else {
      var f := Encode(vs[0]);
      SplitAt(vs[1..], i - 1);
      assert vs[..i][1..] == vs[1..][..i - 1] && vs[1..][i..] == vs[i + 1..] && vs[..i][0] == vs[0];
      FourParts(f, EncodeAll(vs[1..][..i - 1]), Encode(vs[i]), EncodeAll(vs[i + 1..]));
    }
  }

  lemma FourParts(f: Octets, x: Octets, y: Octets, z: Octets)
    ensures f + (x + y + z) == (f + x) + y + z
  {
  }

  /** A slice of the fields, found again behind the discriminator and before whatever follows. */
  lemma WithinData(head: Discriminator, fields: Octets, rest: Octets, lo: nat, w: nat, own: Octets)
    requires lo + w <= |fields| && fields[lo..lo + w] == own
    ensures |head + (fields + rest)| >= 8 + lo + w
    ensures (head + (fields + rest))[8 + lo..8 + lo + w] == own
  {
    var data := head + (fields + rest);
    assert data[8..] == fields + rest;
    Skip(data, 8, 8 + lo, 8 + lo + w);
    assert (fields + rest)[lo..lo + w] == fields[lo..lo + w];
  }

  /** Field `i` of the account stands in `data` behind the fields before it. */
  ghost predicate FitsAt(a: Account, data: Octets, i: nat)
    requires i < |Fields(KindOf(a))|
  {
    var schema := Fields(KindOf(a));
    && 8 + Offset(schema, i) + Width(schema[i]) <= |data| && i < |Written(a)|
    && data[8 + Offset(schema, i)..8 + Offset(schema, i) + Width(schema[i])] == Encode(Written(a)[i])
  }

  predicate StandsAt(k: Kind, i: nat, at: nat) {
    i < |Fields(k)| && at == 8 + Offset(Fields(k), i)
  }

  ghost predicate Fits(a: Account, data: Octets) {
    forall i :: 0 <= i < |Fields(KindOf(a))| ==> FitsAt(a, data, i)
  }

  /** Field `i` of an account is the key `key`, and stands at `at`. */
  lemma KeyField(a: Account, data: Octets, i: nat, at: nat, key: Bytes32)
    requires Fits(a, data) && StandsAt(KindOf(a), i, at) && Fields(KindOf(a))[i] == TFixed(32)
    requires i < |Written(a)| && Written(a)[i] == Fixed(key)
    ensures at + 32 <= |data| && data[at..at + 32] == key
  {
    assert FitsAt(a, data, i);
  }

  lemma WordField(a: Account, data: Octets, i: nat, at: nat, v: Bytes.U64)
    requires Fits(a, data) && StandsAt(KindOf(a), i, at) && Fields(KindOf(a))[i] == TU64
    requires i < |Written(a)| && Written(a)[i] == Val.U64(v)
    ensures at + 8 <= |data| && LeValue(data[at..at + 8]) == v
  {
    assert FitsAt(a, data, i);
    U64Exact(v);
  }

  lemma HalfField(a: Account, data: Octets, i: nat, at: nat, v: U32)
    requires Fits(a, data) && StandsAt(KindOf(a), i, at) && Fields(KindOf(a))[i] == TU32
    requires i < |Written(a)| && Written(a)[i] == Val.U32(v)
    ensures at + 4 <= |data| && LeValue(data[at..at + 4]) == v
  {
    assert FitsAt(a, data, i);
    LeValueOfBytes(4, v);
    Pow256Widths();
    SmallMod(v, U32_MAX + 1);
  }

  lemma ByteField(a: Account, data: Octets, i: nat, at: nat, v: Byte)
    requires Fits(a, data) && StandsAt(KindOf(a), i, at) && Fields(KindOf(a))[i] == TU8
    requires i < |Written(a)| && Written(a)[i] == U8(v)
    ensures at < |data| && data[at] == v
  {
    assert FitsAt(a, data, i);
    SmallMod(v, 256);
    assert data[at] == data[at..at + 1][0];
  }

  lemma BoolField(a: Account, data: Octets, i: nat, at: nat, v: bool)
    requires Fits(a, data) && StandsAt(KindOf(a), i, at) && Fields(KindOf(a))[i] == TBool
    requires i < |Written(a)| && Written(a)[i] == Bool(v)
    ensures at < |data| && data[at] == if v then 1 else 0
  {
    assert FitsAt(a, data, i);
    assert data[at] == data[at..at + 1][0];
  }

  lemma DataFitsAt(d: Discriminators, a: Account, rest: Octets, i: nat)
    requires i < |Fields(KindOf(a))|
    ensures FitsAt(a, Data(d, a, rest), i)
  {
    var schema, vs := Fields(KindOf(a)), Written(a);
    NamedWritten(a);
    NoVariableFields(KindOf(a));
    FieldAt(vs, schema, i);
    WithinData(d(KindOf(a)), EncodeAll(vs), rest, Offset(schema, i), Width(schema[i]), Encode(vs[i]));
  }

  lemma DataFits(d: Discriminators, a: Account, rest: Octets)
    ensures Fits(a, Data(d, a, rest))
  {
    forall i | 0 <= i < |Fields(KindOf(a))| ensures FitsAt(a, Data(d, a, rest), i) {
      DataFitsAt(d, a, rest, i);
    }
  }

  /** The discriminator comes first, and what follows the fields is the rest. */
  lemma {:induction false} DataEnds(d: Discriminators, a: Account, rest: Octets)
    ensures var n := 8 + Widths(Fields(KindOf(a)));
            |Data(d, a, rest)| >= n && Data(d, a, rest)[..8] == d(KindOf(a)) && Data(d, a, rest)[n..] == rest
  {
    NamedWritten(a);
    NoVariableFields(KindOf(a));
    EncodedWidth(Written(a), Fields(KindOf(a)));
    var data := Data(d, a, rest);
    assert data[8..] == EncodeAll(Written(a)) + rest;
    assert data[8 + Widths(Fields(KindOf(a)))..] == data[8..][Widths(Fields(KindOf(a)))..];
    FieldWidths(KindOf(a));
  }

  lemma ConfigOffsets()
    ensures var f := Fields(Config);
            && |f| == 4
            && Offset(f, 0) == 0 && Offset(f, 1) == 32 && Offset(f, 2) == 64 && Offset(f, 3) == 68
  {
    var f := Fields(Config);
    assert Offset(f, 1) == Offset(f, 0) + 32;
    assert Offset(f, 2) == Offset(f, 1) + 32;
    assert Offset(f, 3) == Offset(f, 2) + 4;
  }

  /** Where each field stands in the configuration's data. */
  ghost predicate IsConfig(a: Account, data: Octets)
    requires a.ConfigAccount?
  {
    && |data| >= 77
    && data[8..40] == a.admin
    && data[40..72] == a.oracle
    && LeValue(data[72..76]) == a.feeBasisPoints
    && data[76] == a.bump
  }

  lemma ConfigFields(a: Account, data: Octets)
    requires a.ConfigAccount? && Fits(a, data)
    ensures IsConfig(a, data)
  {
    ConfigOffsets();
    KeyField(a, data, 0, 8, a.admin);
    KeyField(a, data, 1, 40, a.oracle);
    HalfField(a, data, 2, 72, a.feeBasisPoints);
    ByteField(a, data, 3, 76, a.bump);
  }

  lemma PetOffsets()
    ensures var f := Fields(Pet);
            && |f| == 4
            && Offset(f, 0) == 0 && Offset(f, 1) == 32 && Offset(f, 2) == 64 && Offset(f, 3) == 72
  {
    var f := Fields(Pet);
    assert Offset(f, 1) == Offset(f, 0) + 32;
    assert Offset(f, 2) == Offset(f, 1) + 32;
    assert Offset(f, 3) == Offset(f, 2) + 8;
  }

  /** Where each field stands in a pet's data. */
  ghost predicate IsPet(a: Account, data: Octets)
    requires a.PetAccount?
  {
    && |data| >= 81
    && data[8..40] == a.owner
    && data[40..72] == a.kolName
    && LeValue(data[72..80]) == a.bondedAt
    && data[80] == a.bump
  }

  lemma PetFields(a: Account, data: Octets)
    requires a.PetAccount? && Fits(a, data)
    ensures IsPet(a, data)
  {
    PetOffsets();
    KeyField(a, data, 0, 8, a.owner);
    KeyField(a, data, 1, 40, a.kolName);
    WordField(a, data, 2, 72, a.bondedAt);
    ByteField(a, data, 3, 80, a.bump);
  }

  lemma LaunchOffsets()
    ensures var f := Fields(Launch);
            && |f| == 9
            && Offset(f, 0) == 0 && Offset(f, 1) == 32 && Offset(f, 2) == 64 && Offset(f, 3) == 72
            && Offset(f, 4) == 80 && Offset(f, 5) == 88 && Offset(f, 6) == 96 && Offset(f, 7) == 104
            && Offset(f, 8) == 105
  {
    var f := Fields(Launch);
    assert Offset(f, 1) == Offset(f, 0) + 32;
    assert Offset(f, 2) == Offset(f, 1) + 32;
    assert Offset(f, 3) == Offset(f, 2) + 8;
    assert Offset(f, 4) == Offset(f, 3) + 8;
    assert Offset(f, 5) == Offset(f, 4) + 8;
    assert Offset(f, 6) == Offset(f, 5) + 8;
    assert Offset(f, 7) == Offset(f, 6) + 8;
    assert Offset(f, 8) == Offset(f, 7) + 1;
  }

  /** Where each field stands in a launch's data. */
  ghost predicate IsLaunch(a: Account, data: Octets)
    requires a.LaunchAccount?
  {
    && |data| >= 114
    && data[8..40] == a.pet
    && data[40..72] == a.pumpMint
    && LeValue(data[72..80]) == a.bondedSlot
    && LeValue(data[80..88]) == a.realSolReserve
    && LeValue(data[88..96]) == a.realTokenReserve
    && LeValue(data[96..104]) == a.creatorFeesLamports
    && LeValue(data[104..112]) == a.totalVolumeLamports
    && data[112] == (if a.graduated then 1 else 0)
    && data[113] == a.bump
  }

  lemma LaunchFront(a: Account, data: Octets)
    requires a.LaunchAccount? && Fits(a, data)
    ensures |data| >= 114
    ensures data[8..40] == a.pet
    ensures data[40..72] == a.pumpMint
    ensures LeValue(data[72..80]) == a.bondedSlot
    ensures LeValue(data[80..88]) == a.realSolReserve
  {
    LaunchOffsets();
    assert FitsAt(a, data, 8);
    KeyField(a, data, 0, 8, a.pet);
    KeyField(a, data, 1, 40, a.pumpMint);
    WordField(a, data, 2, 72, a.bondedSlot);
    WordField(a, data, 3, 80, a.realSolReserve);
  }

  lemma LaunchBack(a: Account, data: Octets)
    requires a.LaunchAccount? && Fits(a, data)
    ensures |data| >= 114
    ensures LeValue(data[88..96]) == a.realTokenReserve
    ensures LeValue(data[96..104]) == a.creatorFeesLamports
    ensures LeValue(data[104..112]) == a.totalVolumeLamports
    ensures data[112] == (if a.graduated then 1 else 0)
    ensures data[113] == a.bump
  {
    LaunchOffsets();
    WordField(a, data, 4, 88, a.realTokenReserve);
    WordField(a, data, 5, 96, a.creatorFeesLamports);
    WordField(a, data, 6, 104, a.totalVolumeLamports);
    BoolField(a, data, 7, 112, a.graduated);
    ByteField(a, data, 8, 113, a.bump);
  }

  lemma KingOffsets()
    ensures var f := Fields(KingOfHill);
            && |f| == 11
            && Offset(f, 0) == 0 && Offset(f, 1) == 32 && Offset(f, 2) == 64 && Offset(f, 3) == 96
            && Offset(f, 4) == 128 && Offset(f, 5) == 136 && Offset(f, 6) == 144 && Offset(f, 7) == 148
            && Offset(f, 8) == 149 && Offset(f, 9) == 150 && Offset(f, 10) == 158
  {
    var f := Fields(KingOfHill);
    assert Offset(f, 1) == Offset(f, 0) + 32;
    assert Offset(f, 2) == Offset(f, 1) + 32;
    assert Offset(f, 3) == Offset(f, 2) + 32;
    assert Offset(f, 4) == Offset(f, 3) + 32;
    assert Offset(f, 5) == Offset(f, 4) + 8;
    assert Offset(f, 6) == Offset(f, 5) + 8;
    assert Offset(f, 7) == Offset(f, 6) + 4;
    assert Offset(f, 8) == Offset(f, 7) + 1;
    assert Offset(f, 9) == Offset(f, 8) + 1;
    assert Offset(f, 10) == Offset(f, 9) + 8;
  }

  /** Where each field stands in a king's data. */
  ghost predicate IsKing(a: Account, data: Octets)
    requires a.KingOfHillAccount?
  {
    && |data| >= 167
    && data[8..40] == a.pet
    && data[40..72] == a.nftMint
    && data[72..104] == a.nftEscrowVault
    && data[104..136] == a.currentChampion
    && LeValue(data[136..144]) == a.championBalance
    && LeValue(data[144..152]) == a.lastCapturedSlot
    && LeValue(data[152..156]) == a.takeOvers
    && data[156] == a.bump
    && data[157] == a.nftEscrowVaultBump
    && LeValue(data[158..166]) == a.settlesAtSlot
    && data[166] == (if a.settled then 1 else 0)
  }

  lemma KingFront(a: Account, data: Octets)
    requires a.KingOfHillAccount? && Fits(a, data)
    ensures |data| >= 167
    ensures data[8..40] == a.pet
    ensures data[40..72] == a.nftMint
    ensures data[72..104] == a.nftEscrowVault
    ensures data[104..136] == a.currentChampion
  {
    KingOffsets();
    assert FitsAt(a, data, 10);
    KeyField(a, data, 0, 8, a.pet);
    KeyField(a, data, 1, 40, a.nftMint);
    KeyField(a, data, 2, 72, a.nftEscrowVault);
    KeyField(a, data, 3, 104, a.currentChampion);
  }

  lemma KingMiddle(a: Account, data: Octets)
    requires a.KingOfHillAccount? && Fits(a, data)
    ensures |data| >= 167
    ensures LeValue(data[136..144]) == a.championBalance
    ensures LeValue(data[144..152]) == a.lastCapturedSlot
    ensures LeValue(data[152..156]) == a.takeOvers
    ensures data[156] == a.bump
  {
    KingOffsets();
    assert FitsAt(a, data, 10);
    WordField(a, data, 4, 136, a.championBalance);
    WordField(a, data, 5, 144, a.lastCapturedSlot);
    HalfField(a, data, 6, 152, a.takeOvers);
    ByteField(a, data, 7, 156, a.bump);
  }

  lemma KingBack(a: Account, data: Octets)
    requires a.KingOfHillAccount? && Fits(a, data)
    ensures |data| >= 167
    ensures data[157] == a.nftEscrowVaultBump
    ensures LeValue(data[158..166]) == a.settlesAtSlot
    ensures data[166] == (if a.settled then 1 else 0)
  {
    KingOffsets();
    ByteField(a, data, 8, 157, a.nftEscrowVaultBump);
    WordField(a, data, 9, 158, a.settlesAtSlot);
    BoolField(a, data, 10, 166, a.settled);
  }

  lemma DistributionOffsets()
    ensures var f := Fields(Distribution);
            && |f| == 5
            && Offset(f, 0) == 0 && Offset(f, 1) == 8 && Offset(f, 2) == 40 && Offset(f, 3) == 48
            && Offset(f, 4) == 56
  {
    var f := Fields(Distribution);
    assert Offset(f, 1) == Offset(f, 0) + 8;
    assert Offset(f, 2) == Offset(f, 1) + 32;
    assert Offset(f, 3) == Offset(f, 2) + 8;
    assert Offset(f, 4) == Offset(f, 3) + 8;
  }

  /** Where each field stands in a distribution's data. */
  ghost predicate IsDistribution(a: Account, data: Octets)
    requires a.DistributionAccount?
  {
    && |data| >= 65
    && LeValue(data[8..16]) == a.epoch
    && data[16..48] == a.root
    && LeValue(data[48..56]) == a.poolLamports
    && LeValue(data[56..64]) == a.committedAt
    && data[64] == a.bump
  }

  lemma DistributionFields(a: Account, data: Octets)
    requires a.DistributionAccount? && Fits(a, data)
    ensures IsDistribution(a, data)
  {
    DistributionOffsets();
    WordField(a, data, 0, 8, a.epoch);
    KeyField(a, data, 1, 16, a.root);
    WordField(a, data, 2, 48, a.poolLamports);
    WordField(a, data, 3, 56, a.committedAt);
    ByteField(a, data, 4, 64, a.bump);
  }

  lemma HolderClaimOffsets()
    ensures var f := Fields(HolderClaim);
            && |f| == 5
            && Offset(f, 0) == 0 && Offset(f, 1) == 32 && Offset(f, 2) == 40 && Offset(f, 3) == 48
            && Offset(f, 4) == 56
  {
    var f := Fields(HolderClaim);
    assert Offset(f, 1) == Offset(f, 0) + 32;
    assert Offset(f, 2) == Offset(f, 1) + 8;
    assert Offset(f, 3) == Offset(f, 2) + 8;
    assert Offset(f, 4) == Offset(f, 3) + 8;
  }

  /** Where each field stands in a receipt's data. */
  ghost predicate IsHolderClaim(a: Account, data: Octets)
    requires a.HolderClaimAccount?
  {
    && |data| >= 65
    && data[8..40] == a.holder
    && LeValue(data[40..48]) == a.epoch
    && LeValue(data[48..56]) == a.amountClaimed
    && LeValue(data[56..64]) == a.claimedAtSlot
    && data[64] == a.bump
  }

  lemma HolderClaimFields(a: Account, data: Octets)
    requires a.HolderClaimAccount? && Fits(a, data)
    ensures IsHolderClaim(a, data)
  {
    HolderClaimOffsets();
    KeyField(a, data, 0, 8, a.holder);
    WordField(a, data, 1, 40, a.epoch);
    WordField(a, data, 2, 48, a.amountClaimed);
    WordField(a, data, 3, 56, a.claimedAtSlot);
    ByteField(a, data, 4, 64, a.bump);
  }

  /** The octets of `data` are those of account `a`, field by field. */
  ghost predicate Describes(a: Account, data: Octets) {
    match a
    case ConfigAccount(_, _, _, _) => IsConfig(a, data)
    case PetAccount(_, _, _, _) => IsPet(a, data)
    case LaunchAccount(_, _, _, _, _, _, _, _, _) => IsLaunch(a, data)
    case KingOfHillAccount(_, _, _, _, _, _, _, _, _, _, _) => IsKing(a, data)
    case DistributionAccount(_, _, _, _, _) => IsDistribution(a, data)
    case HolderClaimAccount(_, _, _, _, _) => IsHolderClaim(a, data)
  }

  /** In the data of every account each field stands in its own place, as a number, a key or a flag. */
  lemma {:induction false} DataLayout(d: Discriminators, a: Account, rest: Octets)
    ensures Describes(a, Data(d, a, rest))
  {
    var data := Data(d, a, rest);
    DataFits(d, a, rest);
    match a
    case ConfigAccount(_, _, _, _) => ConfigFields(a, data);
    case PetAccount(_, _, _, _) => PetFields(a, data);
    case LaunchAccount(_, _, _, _, _, _, _, _, _) =>
      LaunchFront(a, data);
      LaunchBack(a, data);
    case KingOfHillAccount(_, _, _, _, _, _, _, _, _, _, _) =>
      KingFront(a, data);
      KingMiddle(a, data);
      KingBack(a, data);
    case DistributionAccount(_, _, _, _, _) => DistributionFields(a, data);
    case HolderClaimAccount(_, _, _, _, _) => HolderClaimFields(a, data);
  }
}
