/** Fixed-width KOL names: the packer and the three ways of reading one back. */
module KolNames {
  import opened Bytes
  import opened Trim
  import opened Wrappers

  const KOL_NAME_LEN: nat := 32

  /** `pack_kol_name` and `encodeKolName`: zero-padded to 32 octets, longer names fail. */
  method PackKolName(input: Octets) returns (r: Option<Bytes32>)
    ensures r.Some? <==> |input| <= KOL_NAME_LEN
    ensures r.Some? ==> r.value == Padded(input)
  {
    if |input| > KOL_NAME_LEN {
      return None;
    }
    var out := new Byte[KOL_NAME_LEN](_ => 0);
    for i := 0 to |input|
      invariant forall k :: 0 <= k < i ==> out[k] == input[k]
      invariant forall k :: i <= k < out.Length ==> out[k] == 0
    {
      out[i] := input[i];
    }
    assert out[..] == Padded(input);
    r := Some(out[..]);
  }

  function Padded(input: Octets): (r: Octets)
    requires |input| <= KOL_NAME_LEN
    ensures |r| == KOL_NAME_LEN
  {
    input + Repeat<Byte>(KOL_NAME_LEN - |input|, 0)
  }

  /** `unpack_kol_name` and `decodeKolName`: walk back over trailing zeros. */
  method UnpackKolName(buf: Bytes32) returns (name: Octets)
    ensures name == Strip<Byte>(buf, 0)
  {
    var end := |buf|;
    assert buf[..end] == buf;
    while end > 0 && buf[end - 1] == 0
      invariant 0 <= end <= |buf|
      invariant Strip<Byte>(buf, 0) == Strip<Byte>(buf[..end], 0)
    {
      end := end - 1;
      assert buf[..end + 1][..end] == buf[..end];
    }
    name := buf[..end];
  }

  /** `kol_name_to_string`: cut at the first zero. */
  function CutAtZero(buf: Octets): (r: Octets)
    ensures r <= buf && 0 !in r
    ensures |r| < |buf| ==> buf[|r|] == 0
  {
    if buf == [] || buf[0] == 0 then [] else [buf[0]] + CutAtZero(buf[1..])
  }

  lemma StripOfPadded(name: Octets)
    requires |name| <= KOL_NAME_LEN
    ensures Strip<Byte>(Padded(name), 0) == Strip<Byte>(name, 0)
  {
    var n := KOL_NAME_LEN - |name|;
    StripPadded<Byte>(name, n, 0);
    assert Padded(name) == name + Repeat<Byte>(n, 0);
  }

  /** A packed name comes back exactly when it does not end in a zero octet. */
  lemma UnpackPackExact(name: Octets)
    requires |name| <= KOL_NAME_LEN
    ensures Strip<Byte>(Padded(name), 0) == name <==> name == [] || name[|name| - 1] != 0
  {
    StripOfPadded(name);
    StripFixed<Byte>(name, 0);
  }

  /** Two names share a buffer, and so a pet address, exactly when they differ in trailing zeros only. */
  lemma {:induction false} PackCollision(a: Octets, b: Octets)
    requires |a| <= KOL_NAME_LEN && |b| <= KOL_NAME_LEN
    ensures Padded(a) == Padded(b) <==> Strip<Byte>(a, 0) == Strip<Byte>(b, 0)
  {
    StripOfPadded(a);
    StripOfPadded(b);
    if Strip<Byte>(a, 0) == Strip<Byte>(b, 0) {
      StripDetermines<Byte>(Padded(a), Padded(b), 0);
    }
  }

  lemma {:induction false} CutPosition(buf: Octets, n: nat)
    requires n <= |buf| && 0 !in buf[..n] && (n < |buf| ==> buf[n] == 0)
    ensures CutAtZero(buf) == buf[..n]
  {
    if n > 0 {
      assert buf[0] == buf[..n][0] && buf[1..][..n - 1] == buf[..n][1..];
      CutPosition(buf[1..], n - 1);
    }
  }

  /** The CLI's reading agrees with the others exactly when no zero precedes a non-zero octet. */
  lemma {:induction false} CliNameExact(buf: Octets)
    ensures CutAtZero(buf) == Strip<Byte>(buf, 0) <==> 0 !in Strip<Byte>(buf, 0)
  {
    var n := |Strip<Byte>(buf, 0)|;
    StripRest<Byte>(buf, 0);
    if 0 !in Strip<Byte>(buf, 0) {
      CutPosition(buf, n);
    }
  }
}
