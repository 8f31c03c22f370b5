/** Octets, fixed-width little-endian words, and the lexicographic byte order. */
module Bytes {
  import opened Wrappers

  type Byte = x: int | 0 <= x < 256
  type Octets = seq<Byte>

  /** A public key or a digest: exactly 32 octets. */
  type Bytes32 = b: seq<Byte> | |b| == 32 witness seq(32, _ => 0)

  const U32_MAX: int := 0xFFFF_FFFF
  const U64_MAX: int := 0xFFFF_FFFF_FFFF_FFFF

  type U64 = x: int | 0 <= x <= U64_MAX

  function Pow256(n: nat): (r: nat)
    ensures r > 0
  {
    if n == 0 then 1 else 256 * Pow256(n - 1)
  }

  /** The low `n` octets of the two's complement form of `v`, least significant first. */
  function LeBytes(n: nat, v: int): (r: Octets)
    ensures |r| == n
  {
    if n == 0 then [] else [v % 256] + LeBytes(n - 1, v / 256)
  }

  /** The number that a little-endian octet string denotes. */
  function LeValue(b: Octets): (r: nat)
    ensures r < Pow256(|b|)
  {
    if b == [] then 0 else b[0] + 256 * LeValue(b[1..])
  }

  // ---------------------------------------------------------------- words

  lemma DivModUnique(a: int, m: int, q: int, r: int)
    requires 0 <= r < m && a == q * m + r
    ensures a % m == r && a / m == q
  {
    var d := a / m - q;
    assert d * m == r - a % m;
    MultipleBound(d, m);
  }

  lemma MultipleBound(d: int, m: int)
    requires m > 0
    ensures d >= 1 ==> d * m >= m
    ensures d <= -1 ==> d * m <= -m
  {
    if d >= 1 {
      assert (d - 1) * m >= 0;
    } else if d <= -1 {
      assert (-d - 1) * m >= 0;
    }
  }

  /** Splitting off the low octet before or after reducing is the same. */
  lemma ModByOctet(v: int, p: int)
    requires p > 0
    ensures v % (256 * p) == v % 256 + 256 * ((v / 256) % p)
  {
    var q, r := (v / 256) / p, (v / 256) % p;
    assert v == 256 * (q * p + r) + v % 256;
    assert 256 * (q * p) == q * (256 * p);
    DivModUnique(v, 256 * p, q, 256 * r + v % 256);
  }

  lemma {:induction false} LeValueOfBytes(n: nat, v: int)
    ensures LeValue(LeBytes(n, v)) == v % Pow256(n)
    decreases n
  {
    if n > 0 {
      LeValueOfBytes(n - 1, v / 256);
      ModByOctet(v, Pow256(n - 1));
      assert LeBytes(n, v)[1..] == LeBytes(n - 1, v / 256);
    }
  }

  lemma DivideTwice(v: int, p: int)
    requires p > 0
    ensures v / (256 * p) == (v / 256) / p
  {
    var q, r := (v / 256) / p, (v / 256) % p;
    assert v == 256 * (q * p + r) + v % 256;
    assert 256 * (q * p) == q * (256 * p);
    DivModUnique(v, 256 * p, q, 256 * r + v % 256);
  }

  /** Octet `k` of a word counts 256^k: the least significant octet comes first. */
  lemma {:induction false} LeBytesAt(n: nat, v: int, k: nat)
    requires k < n
    ensures LeBytes(n, v)[k] == (v / Pow256(k)) % 256
    decreases k
  {
    LeBytesStep(n, v);
    if k > 0 {
      LeBytesAt(n - 1, v / 256, k - 1);
      DivideTwice(v, Pow256(k - 1));
    }
  }

  lemma LeBytesInjective(n: nat, v: int, w: int)
    requires 0 <= v < Pow256(n) && 0 <= w < Pow256(n) && LeBytes(n, v) == LeBytes(n, w)
    ensures v == w
  {
    LeValueOfBytes(n, v);
    LeValueOfBytes(n, w);
    SmallMod(v, Pow256(n));
    SmallMod(w, Pow256(n));
  }

  lemma SmallMod(v: int, m: int)
    requires 0 <= v < m
    ensures v % m == v
  {
    DivModUnique(v, m, 0, v);
  }

  lemma {:induction false} LeBytesOfValue(b: Octets)
    ensures LeBytes(|b|, LeValue(b)) == b
  {
    if b != [] {
      LeBytesOfValue(b[1..]);
      assert LeValue(b) % 256 == b[0] && LeValue(b) / 256 == LeValue(b[1..]);
    }
  }

  lemma LeBytesStep(n: nat, v: int)
    requires n > 0
    ensures LeBytes(n, v) == [v % 256] + LeBytes(n - 1, v / 256)
  {
  }

  lemma Pow256Widths()
    ensures Pow256(1) == 256 && Pow256(4) == U32_MAX + 1 && Pow256(8) == U64_MAX + 1
  {
    assert Pow256(2) == 0x1_0000;
    assert Pow256(4) == 0x1_0000_0000;
    assert Pow256(6) == 0x1_0000_0000_0000;
  }

  /** Reading back eight written octets gives the value modulo 2^64. */
  lemma U64RoundTrip(v: int)
    ensures LeValue(LeBytes(8, v)) == v % (U64_MAX + 1)
  {
    LeValueOfBytes(8, v);
    Pow256Widths();
  }

  lemma U64BytesInjective(v: U64, w: U64)
    requires LeBytes(8, v) == LeBytes(8, w)
    ensures v == w
  {
    Pow256Widths();
    LeBytesInjective(8, v, w);
  }

  lemma U64Exact(v: U64)
    ensures LeValue(LeBytes(8, v)) == v
  {
    U64RoundTrip(v);
    SmallMod(v, U64_MAX + 1);
  }

  lemma ThreeSlices(a: Octets, b: Octets, c: Octets)
    ensures (a + b + c)[..|a|] == a
    ensures (a + b + c)[|a|..|a| + |b|] == b
    ensures (a + b + c)[|a| + |b|..] == c
  {
  }

  lemma SplitThree(a: Octets, b: Octets, c: Octets, x: Octets, y: Octets, z: Octets)
    requires a + b + c == x + y + z && |a| == |x| && |b| == |y|
    ensures a == x && b == y && c == z
  {
    var p, q := a + b + c, x + y + z;
    var m, n := |a|, |a| + |b|;
    assert a == p[..m] && x == q[..m];
    assert b == p[m..n] && y == q[m..n];
    assert c == p[n..] && z == q[n..];
  }

  /** `u64LeBytes`: eight shifts out of a running value; negative input throws. */
  method U64LeBytes(value: int) returns (r: Result<Octets, string>)
    ensures r.Success? <==> value >= 0
    ensures r.Success? ==> r.value == LeBytes(8, value)
  {
    if value < 0 {
      return Failure("u64LeBytes: negative value");
    }
    var out: Octets := [];
    var v := value;
    ghost var n := 8;
    ghost var all := LeBytes(n, value);
    for i := 0 to 8
      invariant 0 <= n == 8 - i && |out| == i
      invariant out + LeBytes(n, v) == all
    {
      LeBytesStep(n, v);
      assert out + ([v % 256] + LeBytes(n - 1, v / 256)) == (out + [v % 256]) + LeBytes(n - 1, v / 256);
      out := out + [v % 256];
      v, n := v / 256, n - 1;
    }
    assert out + [] == out;
    return Success(out);
  }

  /** `readU64Le`: folds eight octets from the most significant end. */
  method ReadU64Le(buf: Octets, offset: nat) returns (v: nat)
    requires offset + 8 <= |buf|
    ensures v == LeValue(buf[offset..offset + 8])
  {
    v := 0;
    var i := 8;
    while i > 0
      invariant 0 <= i <= 8
      invariant v == LeValue(buf[offset + i..offset + 8])
    {
      i := i - 1;
      v := v * 256 + buf[offset + i];
      assert buf[offset + i..offset + 8][1..] == buf[offset + i + 1..offset + 8];
    }
  }

  // ---------------------------------------------------------------- byte order

  /** Lexicographic order, as `<=` on byte arrays and `Buffer.compare`. */
  predicate LexLeq(a: Octets, b: Octets) {
    a == [] || (b != [] && (a[0] < b[0] || (a[0] == b[0] && LexLeq(a[1..], b[1..]))))
  }

  lemma {:induction false} LexTotal(a: Octets, b: Octets)
    ensures LexLeq(a, b) || LexLeq(b, a)
    ensures LexLeq(a, b) && LexLeq(b, a) ==> a == b
  {
    if a != [] && b != [] && a[0] == b[0] {
      LexTotal(a[1..], b[1..]);
      assert a == [a[0]] + a[1..] && b == [b[0]] + b[1..];
    }
  }

  /** The octets agree before position `k`, where `a` has the smaller one. */
  ghost predicate SmallerAt(a: Octets, b: Octets, k: nat) {
    k < |a| && k < |b| && a[..k] == b[..k] && a[k] < b[k]
  }

  lemma PrefixAgrees(a: Octets, b: Octets, k: nat, i: nat)
    requires i < k <= |a| && k <= |b| && a[..k] == b[..k]
    ensures a[i] == b[i]
  {
    assert a[..k][i] == a[i] && b[..k][i] == b[i];
  }

  lemma SmallerAtHead(a: Octets, b: Octets)
    requires a != [] && b != [] && a[0] != b[0]
    ensures (exists k: nat :: SmallerAt(a, b, k)) <==> a[0] < b[0]
  {
    if a[0] < b[0] {
      assert SmallerAt(a, b, 0);
    }
    if k: nat :| k > 0 && SmallerAt(a, b, k) {
      PrefixAgrees(a, b, k, 0);
    }
  }

  lemma SmallerBehindHead(a: Octets, b: Octets)
    requires a != [] && b != [] && a[0] == b[0]
    ensures (exists k: nat :: SmallerAt(a, b, k)) <==> exists k: nat :: SmallerAt(a[1..], b[1..], k)
  {
    if k: nat :| SmallerAt(a, b, k) {
      SmallerInTail(a, b, k);
    }
    if k: nat :| SmallerAt(a[1..], b[1..], k) {
      SmallerInTail(a, b, k + 1);
    }
  }

  /** The order in full: a prefix comes first, otherwise the first difference decides. */
  lemma {:induction false} LexFirstDifference(a: Octets, b: Octets)
    ensures LexLeq(a, b) <==> a <= b || exists k: nat :: SmallerAt(a, b, k)
  {
    if a != [] && b != [] {
      if a[0] == b[0] {
        LexFirstDifference(a[1..], b[1..]);
        SmallerBehindHead(a, b);
        assert a == [a[0]] + a[1..] && b == [b[0]] + b[1..];
      } else {
        SmallerAtHead(a, b);
      }
    }
  }

  lemma SmallerInTail(a: Octets, b: Octets, k: nat)
    requires a != [] && b != [] && a[0] == b[0] && k > 0
    ensures SmallerAt(a, b, k) <==> SmallerAt(a[1..], b[1..], k - 1)
  {
    if k < |a| && k < |b| {
      assert a[..k] == [a[0]] + a[1..][..k - 1] && b[..k] == [b[0]] + b[1..][..k - 1];
      assert a[1..][..k - 1] == a[..k][1..] && b[1..][..k - 1] == b[..k][1..];
    }
  }

  lemma LexOfDifference(a: Octets, b: Octets, k: nat)
    requires SmallerAt(a, b, k)
    ensures LexLeq(a, b) && !LexLeq(b, a) && a != b
  {
    LexFirstDifference(a, b);
    LexTotal(a, b);
  }

  /** The first position at which one of the two ends or they differ. */
  function FirstDifference(a: Octets, b: Octets): (k: nat)
    ensures k <= |a| && k <= |b| && a[..k] == b[..k]
    ensures k < |a| && k < |b| ==> a[k] != b[k]
  {
    if a == [] || b == [] || a[0] != b[0] then 0
    else
      var k := FirstDifference(a[1..], b[1..]);
      assert a[..k + 1] == [a[0]] + a[1..][..k] && b[..k + 1] == [b[0]] + b[1..][..k];
      k + 1
  }

  /** Nothing after a common prefix but before a difference can be the first difference. */
  lemma DifferenceIsFirst(a: Octets, b: Octets, i: nat)
    requires i <= |a| && i <= |b| && a[..i] == b[..i]
    requires i < |a| && i < |b| ==> a[i] != b[i]
    ensures FirstDifference(a, b) == i
  {
    var k := FirstDifference(a, b);
    if k < i {
      PrefixAgrees(a, b, i, k);
    } else if i < k {
      PrefixAgrees(a, b, k, i);
    }
  }

  /** `compareBytes`: the difference of the first octets that differ, or of the lengths. */
  method CompareBytes(a: Octets, b: Octets) returns (r: int)
    ensures var k := FirstDifference(a, b);
            r == if k < |a| && k < |b| then a[k] as int - b[k] as int else |a| - |b|
    ensures r <= 0 <==> LexLeq(a, b)
    ensures r == 0 <==> a == b
  {
    var len := if |a| < |b| then |a| else |b|;
    for i := 0 to len
      invariant a[..i] == b[..i]
      invariant LexLeq(a, b) == LexLeq(a[i..], b[i..])
    {
      if a[i] != b[i] {
        DifferenceIsFirst(a, b, i);
        var x: int, y: int := a[i], b[i];
        return x - y;
      }
      assert a[i..][1..] == a[i + 1..] && b[i..][1..] == b[i + 1..];
    }
    DifferenceIsFirst(a, b, len);
    assert |a| == |b| ==> a == a[..len] && b == b[..len];
    return |a| - |b|;
  }
}
