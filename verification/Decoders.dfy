/**
 The two decoders of on-chain accounts: sdk/src/decoder.ts, which reads the fields it knows
 and ignores what follows, and cli/src/borsh_codec.rs, which insists on consuming everything.

 The eight-octet discriminators are a parameter; they are assumed to be distinct only where
 that is said.
*/
module Decoders {
  import opened Bytes
  import opened Borsh
  import BorshIo
  import opened Wrappers

  const DISCRIMINATOR_LEN: nat := 8

  datatype Kind = Config | Pet | Launch | KingOfHill | Distribution | HolderClaim

  type Discriminator = d: Octets | |d| == 8 witness seq(8, _ => 0)
  type Discriminators = Kind -> Discriminator

  ghost predicate Distinct(d: Discriminators) {
    forall k, j :: d(k) == d(j) ==> k == j
  }

  const PUBKEY: Ty := TFixed(32)

  /** The fields of an account struct, in declaration order. */
  function Fields(k: Kind): seq<Ty> {
    match k
    case Config => [PUBKEY, PUBKEY, TU32, TU8]
    case Pet => [PUBKEY, TFixed(32), TU64, TU8]
    case Launch => [PUBKEY, PUBKEY, TU64, TU64, TU64, TU64, TU64, TBool, TU8]
    case KingOfHill => [PUBKEY, PUBKEY, PUBKEY, PUBKEY, TU64, TU64, TU32, TU8, TU8, TU64, TBool]
    case Distribution => [TU64, TFixed(32), TU64, TU64, TU8]
    case HolderClaim => [PUBKEY, TU64, TU64, TU64, TU8]
  }

  /** The `_reserved` octets that the program writes after the fields. */
  function Reserved(k: Kind): nat {
    match k
    case Config => 3
    case Pet => 7
    case Launch => 6
    case KingOfHill => 5
    case Distribution => 7
    case HolderClaim => 7
  }

  /** The size with which the program allocates the account. */
  function Size(k: Kind): nat {
    match k
    case Config => 8 + 32 + 32 + 4 + 1 + 3
    case Pet => 8 + 32 + 32 + 8 + 1 + 7
    case Launch => 8 + 32 + 32 + 48 + 1 + 1 + 6
    case KingOfHill => 8 + 128 + 8 + 8 + 4 + 1 + 1 + 8 + 1 + 5
    case Distribution => 8 + 8 + 32 + 8 + 8 + 1 + 7
    case HolderClaim => 8 + 32 + 8 + 8 + 8 + 1 + 7
  }

  // ---------------------------------------------------------------- SDK

  /** `matchAccountDiscriminator`: a length check, then octet by octet. */
  method MatchDiscriminator(buf: Octets, expected: Discriminator) returns (ok: bool)
    ensures ok <==> |buf| >= DISCRIMINATOR_LEN && buf[..DISCRIMINATOR_LEN] == expected
  {
    if |buf| < DISCRIMINATOR_LEN {
      return false;
    }
    for i := 0 to DISCRIMINATOR_LEN
      invariant buf[..i] == expected[..i]
    {
      if buf[i] != expected[i] {
        assert buf[..DISCRIMINATOR_LEN][i] != expected[i];
        return false;
      }
    }
    assert expected[..DISCRIMINATOR_LEN] == expected;
    ok := true;
  }

  /** What the SDK makes of a buffer that should hold an account of kind `k`. */
  function SdkDecoded(d: Discriminators, k: Kind, buf: Octets): Option<Parsed<seq<Val>>> {
    if |buf| >= DISCRIMINATOR_LEN && buf[..DISCRIMINATOR_LEN] == d(k)
    then DecodeAll(Fields(k), buf[DISCRIMINATOR_LEN..])
    else None
  }

  /** `decodeConfig` ... `decodeHolderClaim`: strip the discriminator, then drive a reader. */
  method SdkDecode(d: Discriminators, k: Kind, buf: Octets) returns (r: Option<seq<Val>>, left: nat)
    ensures match SdkDecoded(d, k, buf)
            case None => r == None
            case Some(Parsed(vs, rest)) => r == Some(vs) && left == |rest|
  {
    left := 0;
    var ok := MatchDiscriminator(buf, d(k));
    if !ok {
      return None, 0;
    }
    var reader := new BorshIo.BorshReader(buf[DISCRIMINATOR_LEN..]);
    r := reader.ReadAll(Fields(k));
    left := reader.Remaining();
  }

  const ALL_KINDS: seq<Kind> := [Config, Pet, Launch, KingOfHill, Distribution, HolderClaim]

  /** `decodeColsAccount`: the first kind whose discriminator matches decides. */
  method DecodeColsAccount(d: Discriminators, buf: Octets) returns (r: Option<(Kind, seq<Val>)>)
    ensures r.Some? ==> SdkDecoded(d, r.value.0, buf).Some? && SdkDecoded(d, r.value.0, buf).value.value == r.value.1
    ensures Distinct(d) ==> forall k: Kind :: SdkDecoded(d, k, buf).Some? ==> r.Some? && r.value.0 == k
  {
    for i := 0 to |ALL_KINDS|
      invariant forall j :: 0 <= j < i ==> !(|buf| >= 8 && buf[..8] == d(ALL_KINDS[j]))
    {
      var ok := MatchDiscriminator(buf, d(ALL_KINDS[i]));
      if ok {
        var vs, _ := SdkDecode(d, ALL_KINDS[i], buf);
        return if vs == None then None else Some((ALL_KINDS[i], vs.value));
      }
    }
    forall k: Kind ensures SdkDecoded(d, k, buf).None? {
      KindListed(k);
    }
    r := None;
  }

  lemma KindListed(k: Kind)
    ensures exists j :: 0 <= j < |ALL_KINDS| && ALL_KINDS[j] == k
  {
    var j := match k
      case Config => 0
      case Pet => 1
      case Launch => 2
      case KingOfHill => 3
      case Distribution => 4
      case HolderClaim => 5;
    assert ALL_KINDS[j] == k;
  }

  // ---------------------------------------------------------------- CLI

  datatype CliError = AccountTooSmall | DiscriminatorMismatch | Decode

  /** `split_discriminator` */
  function SplitDiscriminator(expected: Discriminator, raw: Octets): Result<Octets, CliError> {
    var _ :- Require(|raw| >= DISCRIMINATOR_LEN, AccountTooSmall);
    var _ :- Require(raw[..DISCRIMINATOR_LEN] == expected, DiscriminatorMismatch);
    Success(raw[DISCRIMINATOR_LEN..])
  }

  /** `try_from_slice`: the fields must use up the whole slice. */
  function TryFromSlice(schema: seq<Ty>, body: Octets): Result<seq<Val>, CliError> {
    match DecodeAll(schema, body)
    case None => Failure(CliError.Decode)
    case Some(Parsed(vs, rest)) => if rest == [] then Success(vs) else Failure(CliError.Decode)
  }

  /** `decode_config` ... `decode_holder_claim` */
  function CliDecode(d: Discriminators, k: Kind, raw: Octets): Result<seq<Val>, CliError> {
    var body :- SplitDiscriminator(d(k), raw);
    TryFromSlice(Fields(k), body)
  }

  // ---------------------------------------------------------------- agreement

  /**
   For every buffer, the strict decoder accepts exactly the encodings of in-range fields
   behind the discriminator, which is exactly when the SDK decoder accepts with nothing left,
   and then both return those fields.
  */
  lemma DecodersAgree(d: Discriminators, k: Kind, buf: Octets, vs: seq<Val>)
    requires HasAll(vs, Fields(k))
    ensures CliDecode(d, k, buf) == Success(vs) <==> SdkDecoded(d, k, buf) == Some(Parsed(vs, []))
    ensures CliDecode(d, k, buf) == Success(vs) <==> AllInRange(vs) && buf == d(k) + EncodeAll(vs)
  {
    if CliDecode(d, k, buf) == Success(vs) {
      RecordExact(Fields(k), buf[DISCRIMINATOR_LEN..]);
      assert EncodeAll(vs) + [] == EncodeAll(vs);
      assert buf == buf[..DISCRIMINATOR_LEN] + buf[DISCRIMINATOR_LEN..];
    }
    if AllInRange(vs) && buf == d(k) + EncodeAll(vs) {
      assert buf[..DISCRIMINATOR_LEN] == d(k) && buf[DISCRIMINATOR_LEN..] == EncodeAll(vs);
      RecordRoundTrip(vs, Fields(k), []);
      assert EncodeAll(vs) + [] == EncodeAll(vs);
    }
  }

  /** Which error the strict decoder gives. */
  lemma {:induction false} CliErrors(d: Discriminators, k: Kind, raw: Octets)
    requires CliDecode(d, k, raw).Failure?
    ensures CliDecode(d, k, raw).error ==
            if |raw| < 8 then AccountTooSmall
            else if raw[..8] != d(k) then DiscriminatorMismatch
            else CliError.Decode
  {
  }

  /** Fields of an account take a fixed number of octets. */
  function Width(ty: Ty): nat {
    match ty
    case TU8 => 1
    case TU32 => 4
    case TU64 => 8
    case TBool => 1
    case TFixed(n) => n
    case TString => 0
    case TVec32 => 0
  }

  function Widths(schema: seq<Ty>): nat {
    if schema == [] then 0 else Width(schema[0]) + Widths(schema[1..])
  }

  lemma {:induction false} EncodedWidth(vs: seq<Val>, schema: seq<Ty>)
    requires HasAll(vs, schema) && TString !in schema && TVec32 !in schema
    ensures |EncodeAll(vs)| == Widths(schema)
  {
    if vs != [] {
      assert vs[0].Has(schema[0]);
      EncodedWidth(vs[1..], schema[1..]);
    }
  }

  lemma NoVariableFields(k: Kind)
    ensures TString !in Fields(k) && TVec32 !in Fields(k)
  {
  }

  /** Fields and reserved octets fill every account except a launch's, which has eight to spare. */
  lemma FieldWidths(k: Kind)
    ensures DISCRIMINATOR_LEN + Widths(Fields(k)) + Reserved(k) + (if k.Launch? then 8 else 0) == Size(k)
  {
    match k
    case Config => ShortWidth(k);
    case Pet => ShortWidth(k);
    case Launch => LaunchWidth();
    case KingOfHill => KingWidth();
    case Distribution => WidthsOf5(Fields(k));
    case HolderClaim => WidthsOf5(Fields(k));
  }

  /** The allocated sizes in octets, and how many of them are reserved. */
  lemma SizesAre()
    ensures Size(Config) == 80 && Size(Pet) == 88 && Size(Launch) == 128
    ensures Size(KingOfHill) == 172 && Size(Distribution) == 72 && Size(HolderClaim) == 72
    ensures Reserved(Config) == 3 && Reserved(Pet) == 7 && Reserved(Launch) == 6
    ensures Reserved(KingOfHill) == 5 && Reserved(Distribution) == 7 && Reserved(HolderClaim) == 7
  {
  }

  lemma ShortWidth(k: Kind)
    requires k.Config? || k.Pet?
    ensures DISCRIMINATOR_LEN + Widths(Fields(k)) + Reserved(k) == Size(k)
  {
    WidthsOf4(Fields(k));
    assert Fields(k)[4..] == [];
  }

  lemma WidthsOf5(f: seq<Ty>)
    requires |f| == 5
    ensures Widths(f) == Width(f[0]) + Width(f[1]) + Width(f[2]) + Width(f[3]) + Width(f[4])
  {
    WidthsStep(f);
    WidthsOf4(f[1..]);
    assert f[1..][4..] == [];
  }

  lemma LaunchWidth()
    ensures Widths(Fields(Launch)) == 106
  {
    var f := Fields(Launch);
    WidthsOf4(f);
    WidthsOf5(f[4..]);
  }

  lemma WidthsOf11(f: seq<Ty>)
    requires |f| == 11
    ensures Widths(f) == Width(f[0]) + Width(f[1]) + Width(f[2]) + Width(f[3]) + Width(f[4]) + Width(f[5])
                         + Width(f[6]) + Width(f[7]) + Width(f[8]) + Width(f[9]) + Width(f[10])
  {
    WidthsStep(f);
    WidthsStep(f[1..]);
    assert f[1..][1..] == f[2..];
    WidthsOf4(f[2..]);
    assert f[2..][4..] == f[6..];
    WidthsOf5(f[6..]);
  }

  lemma KingWidth()
    ensures Widths(Fields(KingOfHill)) == 159
  {
    WidthsOf11(Fields(KingOfHill));
  }

  lemma WidthsStep(s: seq<Ty>)
    requires s != []
    ensures Widths(s) == Width(s[0]) + Widths(s[1..])
  {
  }

  lemma WidthsOf4(s: seq<Ty>)
    requires |s| >= 4
    ensures Widths(s) == Width(s[0]) + Width(s[1]) + Width(s[2]) + Width(s[3]) + Widths(s[4..])
  {
    assert s[1..][1..] == s[2..] && s[2..][1..] == s[3..] && s[3..][1..] == s[4..];
    WidthsStep(s);
    WidthsStep(s[1..]);
    WidthsStep(s[2..]);
    WidthsStep(s[3..]);
  }

  /** The data of an account that the program wrote: fields, then reserved and slack octets. */
  ghost predicate OnChain(d: Discriminators, k: Kind, vs: seq<Val>, data: Octets) {
    && HasAll(vs, Fields(k)) && AllInRange(vs)
    && |data| == Size(k)
    && d(k) + EncodeAll(vs) <= data
  }

  lemma BehindDiscriminator(head: Discriminator, fields: Octets, rest: Octets)
    ensures var data := (head + fields) + rest;
            && |data| >= DISCRIMINATOR_LEN
            && data[..DISCRIMINATOR_LEN] == head && data[DISCRIMINATOR_LEN..] == fields + rest
  {
    AppendAssoc(head, fields, rest);
  }

  /** The SDK reads back the fields of every account the program wrote. */
  lemma SdkReadsOnChainAccounts(d: Discriminators, k: Kind, vs: seq<Val>, data: Octets)
    requires OnChain(d, k, vs, data)
    ensures SdkDecoded(d, k, data).Some? && SdkDecoded(d, k, data).value.value == vs
  {
    var front := d(k) + EncodeAll(vs);
    var rest := data[|front|..];
    assert data == front + rest;
    BehindDiscriminator(d(k), EncodeAll(vs), rest);
    RecordRoundTrip(vs, Fields(k), rest);
  }

  /** The CLI rejects every one of them: the reserved octets are never consumed. */
  lemma CliRejectsOnChainAccounts(d: Discriminators, k: Kind, vs: seq<Val>, data: Octets)
    requires OnChain(d, k, vs, data)
    ensures CliDecode(d, k, data) == Failure(CliError.Decode)
  {
    SdkReadsOnChainAccounts(d, k, vs, data);
    RecordExact(Fields(k), data[DISCRIMINATOR_LEN..]);
    NoVariableFields(k);
    EncodedWidth(vs, Fields(k));
    FieldWidths(k);
  }
}
