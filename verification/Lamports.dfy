/**
 sdk/src/util.ts: SOL amounts as decimal strings. The parser keeps nine decimals and drops
 the rest; the printer writes no superfluous zero.
*/
module Lamports {
  import Bytes
  import opened Trim
  import opened Wrappers

  const LAMPORTS_PER_SOL: nat := 1_000_000_000

  // ---------------------------------------------------------------- digits

  predicate IsDigit(c: char) {
    '0' <= c <= '9'
  }

  predicate AllDigits(s: string) {
    forall i :: 0 <= i < |s| ==> IsDigit(s[i])
  }

  function Digit(n: nat): (c: char)
    requires n < 10
    ensures IsDigit(c)
  {
    '0' + n as char
  }

  function DigitValue(c: char): (n: nat)
    requires IsDigit(c)
    ensures n < 10 && Digit(n) == c
  {
    c as int - '0' as int
  }

  lemma DigitRoundTrip(n: nat)
    requires n < 10
    ensures DigitValue(Digit(n)) == n
  {
  }

  function Pow10(n: nat): (r: nat)
    ensures r > 0
  {
    if n == 0 then 1 else 10 * Pow10(n - 1)
  }

  /** `BigInt(s)` for a string of digits. */
  function NatValue(s: string): nat
    requires AllDigits(s)
  {
    if s == [] then 0 else 10 * NatValue(s[..|s| - 1]) + DigitValue(s[|s| - 1])
  }

  /** `n.toString()` */
  function NatString(n: nat): (s: string)
    ensures s != [] && AllDigits(s)
    ensures |s| > 1 ==> s[0] != '0'
  {
    if n < 10 then [Digit(n)] else NatString(n / 10) + [Digit(n % 10)]
  }

  lemma {:induction false} ValueOfString(n: nat)
    ensures NatValue(NatString(n)) == n
  {
    DigitRoundTrip(n % 10);
    if n >= 10 {
      ValueOfString(n / 10);
      assert NatString(n)[..|NatString(n)| - 1] == NatString(n / 10);
    } else {
      assert NatString(n) == [Digit(n)];
      assert NatString(n)[..0] == [];
    }
  }

  /** No leading zero, except in "0" itself. */
  predicate NoLeadingZero(s: string) {
    s != [] && (|s| > 1 ==> s[0] != '0')
  }

  lemma {:induction false} StringOfValue(s: string)
    requires AllDigits(s) && NoLeadingZero(s)
    ensures NatString(NatValue(s)) == s
    ensures |s| > 1 ==> NatValue(s) >= 10
  {
    var n := |s| - 1;
    var front := s[..n];
    assert s == front + [s[n]];
    if n == 0 {
      assert front == [];
    } else {
      StringOfValue(front);
      if n == 1 {
        assert front[..0] == [];
        assert NatValue(front) == DigitValue(s[0]) != 0;
      }
    }
  }

  // ---------------------------------------------------------------- fixed width

  /** The last `k` digits of `n`. */
  function FixedString(k: nat, n: nat): (s: string)
    ensures |s| == k && AllDigits(s)
  {
    if k == 0 then [] else FixedString(k - 1, n / 10) + [Digit(n % 10)]
  }

  lemma LastDigit(v: nat, d: nat)
    requires d < 10
    ensures (10 * v + d) / 10 == v && (10 * v + d) % 10 == d
  {
    Bytes.DivModUnique(10 * v + d, 10, v, d);
  }

  lemma {:induction false} FixedOfValue(s: string)
    requires AllDigits(s)
    ensures FixedString(|s|, NatValue(s)) == s
    ensures NatValue(s) < Pow10(|s|)
  {
    if s != [] {
      var n := |s| - 1;
      FixedOfValue(s[..n]);
      LastDigit(NatValue(s[..n]), DigitValue(s[n]));
      assert s == s[..n] + [s[n]];
    }
  }

  lemma {:induction false} ValueOfFixed(k: nat, n: nat)
    requires n < Pow10(k)
    ensures NatValue(FixedString(k, n)) == n
    decreases k
  {
    if k > 0 {
      var s := FixedString(k, n);
      ValueOfFixed(k - 1, n / 10);
      DigitRoundTrip(n % 10);
      assert s[..|s| - 1] == FixedString(k - 1, n / 10);
    }
  }

  /** `s.padStart(k, "0")` */
  function PadStart(s: string, k: nat): string {
    if |s| >= k then s else Repeat(k - |s|, '0') + s
  }

  lemma {:induction false} FixedZero(k: nat)
    ensures FixedString(k, 0) == Repeat(k, '0')
  {
    if k > 0 {
      FixedZero(k - 1);
    }
  }

  lemma SmallPowers()
    ensures Pow10(0) == 1 && Pow10(1) == 10
  {
  }

  lemma TwoDigits(k: nat, n: nat)
    requires 10 <= n < Pow10(k)
    ensures k >= 2
  {
    SmallPowers();
  }

  lemma {:induction false} PadIsFixed(k: nat, n: nat)
    requires k > 0 && n < Pow10(k)
    ensures |NatString(n)| <= k && PadStart(NatString(n), k) == FixedString(k, n)
    decreases k
  {
    if n < 10 {
      FixedZero(k - 1);
      assert Repeat(k - 1, '0') + [Digit(n)] == FixedString(k, n);
    } else {
      TwoDigits(k, n);
      PadIsFixed(k - 1, n / 10);
      var s := NatString(n / 10);
      assert PadStart(s, k - 1) == Repeat(k - 1 - |s|, '0') + s;
      assert Repeat(k - 1 - |s|, '0') + (s + [Digit(n % 10)]) == PadStart(s, k - 1) + [Digit(n % 10)];
    }
  }

  // ---------------------------------------------------------------- parser

  function DotIndex(s: string): (i: nat)
    ensures i <= |s| && (i < |s| ==> s[i] == '.') && forall k :: 0 <= k < i ==> s[k] != '.'
  {
    if s == [] || s[0] == '.' then 0 else 1 + DotIndex(s[1..])
  }

  function Whole(body: string): string {
    body[..DotIndex(body)]
  }

  function Frac(body: string): string {
    if DotIndex(body) == |body| then [] else body[DotIndex(body) + 1..]
  }

  /** One or more digits, optionally followed by a dot and one or more digits. */
  predicate IsDecimal(body: string) {
    && Whole(body) != [] && AllDigits(Whole(body)) && AllDigits(Frac(body))
    && (DotIndex(body) < |body| ==> Frac(body) != [])
  }

  predicate IsNegative(s: string) {
    s != [] && s[0] == '-'
  }

  function Body(s: string): string {
    if IsNegative(s) then s[1..] else s
  }

  const NINE_ZEROS: string := "000000000"

  /** `(frac + "000000000").slice(0, 9)` */
  function FracPadded(frac: string): (r: string)
    ensures |r| == 9
  {
    (frac + NINE_ZEROS)[..9]
  }

  lemma PadShort(frac: string)
    requires |frac| <= 9
    ensures FracPadded(frac) == frac + Repeat(9 - |frac|, '0')
  {
  }

  lemma PaddedDigits(frac: string)
    requires AllDigits(frac)
    ensures AllDigits(FracPadded(frac))
  {
  }

  /** `BigInt(whole) * LAMPORTS_PER_SOL + BigInt(fracPadded)` */
  function Magnitude(body: string): nat
    requires IsDecimal(body)
  {
    PaddedDigits(Frac(body));
    NatValue(Whole(body)) * LAMPORTS_PER_SOL + NatValue(FracPadded(Frac(body)))
  }

  /** `solToLamports`, for string input. */
  function SolToLamports(s: string): Result<int, string> {
    var _ :- Require(IsDecimal(Body(s)), "invalid SOL amount");
    var lamports: int := Magnitude(Body(s));
    Success(if IsNegative(s) then -lamports else lamports)
  }

  // ---------------------------------------------------------------- printer

  function FracString(frac: nat): string {
    Strip(PadStart(NatString(frac), 9), '0')
  }

  function BodyString(n: nat): string {
    var fracStr := FracString(n % LAMPORTS_PER_SOL);
    if |fracStr| > 0 then NatString(n / LAMPORTS_PER_SOL) + "." + fracStr else NatString(n / LAMPORTS_PER_SOL)
  }

  /** `lamportsToSol` */
  function LamportsToSol(x: int): string {
    if x < 0 then "-" + BodyString(-x) else BodyString(x)
  }

  // ---------------------------------------------------------------- round trip

  lemma {:induction false} DotAfter(w: string, f: string)
    requires AllDigits(w)
    ensures DotIndex(w + "." + f) == |w| && Whole(w + "." + f) == w && Frac(w + "." + f) == f
    ensures DotIndex(w) == |w| && Whole(w) == w && Frac(w) == []
  {
    if w != [] {
      DotAfter(w[1..], f);
      assert (w + "." + f)[1..] == w[1..] + "." + f;
    }
    assert (w + "." + f)[..|w|] == w && (w + "." + f)[|w| + 1..] == f;
  }

  lemma Pow10Nine()
    ensures Pow10(9) == LAMPORTS_PER_SOL
  {
    assert Pow10(3) == 1000;
    assert Pow10(6) == 1_000_000;
  }

  /** The stripped fraction, padded again, is the nine digits it came from. */
  lemma FracRoundTrip(frac: nat)
    requires frac < LAMPORTS_PER_SOL
    ensures AllDigits(FracString(frac)) && |FracString(frac)| <= 9
    ensures FracPadded(FracString(frac)) == FixedString(9, frac)
    ensures NatValue(FixedString(9, frac)) == frac
    ensures FracString(frac) == [] <==> frac == 0
  {
    Pow10Nine();
    PadIsFixed(9, frac);
    ValueOfFixed(9, frac);
    var nine := FixedString(9, frac);
    StripRest(nine, '0');
    StripOfDigits(nine);
    NoFraction(frac);
  }

  lemma StripOfDigits(s: string)
    requires AllDigits(s) && |s| == 9
    ensures AllDigits(Strip(s, '0')) && |Strip(s, '0')| <= 9
    ensures FracPadded(Strip(s, '0')) == s
  {
    StripRest(s, '0');
    PadShort(Strip(s, '0'));
  }

  /** Nine digits are all dropped exactly when they are those of zero. */
  lemma NoFraction(frac: nat)
    requires frac < Pow10(9)
    ensures Strip(FixedString(9, frac), '0') == [] <==> frac == 0
  {
    var nine := FixedString(9, frac);
    FixedZero(9);
    StripRest(nine, '0');
    if Strip(nine, '0') == [] {
      assert nine == FixedString(9, 0);
      ValueOfFixed(9, 0);
      ValueOfFixed(9, frac);
    }
    if frac == 0 {
      assert nine == [] + Repeat(9, '0');
      StripPadded([], 9, '0');
    }
  }

  lemma BodyRoundTrip(n: nat)
    ensures IsDecimal(BodyString(n)) && Magnitude(BodyString(n)) == n
    ensures !IsNegative(BodyString(n))
  {
    var w, f := NatString(n / LAMPORTS_PER_SOL), FracString(n % LAMPORTS_PER_SOL);
    FracRoundTrip(n % LAMPORTS_PER_SOL);
    ValueOfString(n / LAMPORTS_PER_SOL);
    DotAfter(w, f);
    assert IsDigit(w[0]);
    if f == [] {
      PaddedDigits([]);
      assert FracPadded([]) == FixedString(9, 0);
    }
  }

  lemma Negated(b: string)
    ensures IsNegative("-" + b) && Body("-" + b) == b
  {
  }

  lemma SignOfPrinted(x: int)
    ensures var s := LamportsToSol(x);
            Body(s) == BodyString(if x < 0 then -x else x) && (IsNegative(s) <==> x < 0)
  {
    BodyRoundTrip(if x < 0 then -x else x);
    Negated(BodyString(if x < 0 then -x else x));
  }

  /** Parsing what was printed gives the number back, for every integer. */
  lemma {:induction false} PrintThenParse(x: int)
    ensures SolToLamports(LamportsToSol(x)) == Success(x)
  {
    SignOfPrinted(x);
    BodyRoundTrip(if x < 0 then -x else x);
  }

  // ---------------------------------------------------------------- canonical strings

  /** How a number is written without anything superfluous. */
  predicate CanonicalBody(body: string) {
    && IsDecimal(body) && NoLeadingZero(Whole(body))
    && |Frac(body)| <= 9 && (Frac(body) != [] ==> Frac(body)[|Frac(body)| - 1] != '0')
  }

  predicate Canonical(s: string) {
    CanonicalBody(Body(s)) && (IsNegative(s) ==> Magnitude(Body(s)) != 0)
  }

  /** A whole and a fraction without superfluous zeros join to a canonical body. */
  lemma JoinedIsCanonical(w: string, f: string)
    requires AllDigits(w) && NoLeadingZero(w)
    requires AllDigits(f) && |f| <= 9 && (f != [] ==> f[|f| - 1] != '0')
    ensures CanonicalBody(if f == [] then w else w + "." + f)
  {
    DotAfter(w, f);
  }

  lemma PrintedBodyIsCanonical(n: nat)
    ensures CanonicalBody(BodyString(n))
  {
    FracRoundTrip(n % LAMPORTS_PER_SOL);
    JoinedIsCanonical(NatString(n / LAMPORTS_PER_SOL), FracString(n % LAMPORTS_PER_SOL));
  }

  lemma {:induction false} PrintedIsCanonical(x: int)
    ensures Canonical(LamportsToSol(x))
  {
    var n := if x < 0 then -x else x;
    PrintedBodyIsCanonical(n);
    BodyRoundTrip(n);
    SignOfPrinted(x);
  }

  /** Splitting a decimal at its dot loses nothing. */
  lemma Rejoin(body: string)
    requires IsDecimal(body)
    ensures body == if Frac(body) == [] then Whole(body) else Whole(body) + "." + Frac(body)
  {
  }

  lemma FracOfCanonical(frac: string)
    requires AllDigits(frac) && |frac| <= 9 && (frac != [] ==> frac[|frac| - 1] != '0')
    ensures AllDigits(FracPadded(frac)) && NatValue(FracPadded(frac)) < LAMPORTS_PER_SOL
    ensures FracString(NatValue(FracPadded(frac))) == frac
  {
    PaddedDigits(frac);
    NineDigits(FracPadded(frac));
    PadShort(frac);
    StripPadded(frac, 9 - |frac|, '0');
    StripFixed(frac, '0');
  }

  /** Nine digits are printed again as themselves. */
  lemma NineDigits(p: string)
    requires AllDigits(p) && |p| == 9
    ensures NatValue(p) < LAMPORTS_PER_SOL && PadStart(NatString(NatValue(p)), 9) == p
  {
    Pow10Nine();
    FixedOfValue(p);
    PadIsFixed(9, NatValue(p));
  }

  lemma CanonicalBodyPrints(body: string)
    requires CanonicalBody(body)
    ensures BodyString(Magnitude(body)) == body
  {
    var w, f := Whole(body), Frac(body);
    FracOfCanonical(f);
    StringOfValue(w);
    Rejoin(body);
    var n := Magnitude(body);
    assert n / LAMPORTS_PER_SOL == NatValue(w) && n % LAMPORTS_PER_SOL == NatValue(FracPadded(f));
  }

  lemma CanonicalPrints(s: string)
    requires Canonical(s)
    ensures LamportsToSol(SolToLamports(s).value) == s
  {
    CanonicalBodyPrints(Body(s));
    Resigned(s);
  }

  lemma Resigned(s: string)
    ensures s == if IsNegative(s) then "-" + Body(s) else Body(s)
  {
  }

  /**
   Printing a parsed string is canonicalisation: a valid string prints as itself exactly when
   it is canonical, and whatever it prints as is canonical and has the same value.
  */
  lemma {:induction false} ParseThenPrint(s: string)
    requires SolToLamports(s).Success?
    ensures var printed := LamportsToSol(SolToLamports(s).value);
            && (printed == s <==> Canonical(s))
            && Canonical(printed)
            && SolToLamports(printed) == SolToLamports(s)
  {
    var x := SolToLamports(s).value;
    PrintedIsCanonical(x);
    PrintThenParse(x);
    if Canonical(s) {
      CanonicalPrints(s);
    }
  }

  // ---------------------------------------------------------------- meaning of the parser

  lemma {:induction false} ValueOfConcat(a: string, b: string)
    requires AllDigits(a) && AllDigits(b)
    ensures AllDigits(a + b) && NatValue(a + b) == NatValue(a) * Pow10(|b|) + NatValue(b)
  {
    if b == [] {
      assert a + b == a;
    } else {
      var c := b[..|b| - 1];
      ValueOfConcat(a, c);
      assert (a + b)[..|a + b| - 1] == a + c;
      TenTimes(NatValue(a), Pow10(|c|));
    }
  }

  lemma TenTimes(x: nat, y: nat)
    ensures x * (10 * y) == 10 * (x * y)
  {
  }

  lemma {:induction false} ZerosHaveNoValue(n: nat)
    ensures NatValue(Repeat(n, '0')) == 0
  {
    if n > 0 {
      ZerosHaveNoValue(n - 1);
      assert Repeat(n, '0')[..n - 1] == Repeat(n - 1, '0');
    }
  }

  /** The fraction counts billionths: one of at most nine digits is scaled up exactly ... */
  lemma ShortFraction(frac: string, k: nat)
    requires AllDigits(frac) && |frac| + k == 9
    ensures AllDigits(FracPadded(frac)) && NatValue(FracPadded(frac)) == NatValue(frac) * Pow10(k)
  {
    var z := Repeat(k, '0');
    PadShort(frac);
    ValueOfConcat(frac, z);
    ZerosHaveNoValue(k);
    assert FracPadded(frac) == frac + z && |z| == k;
  }

  /** ... and a longer one is truncated, never rounded. */
  lemma {:induction false} LongFraction(frac: string)
    requires AllDigits(frac) && |frac| > 9
    ensures AllDigits(FracPadded(frac))
    ensures NatValue(FracPadded(frac)) == NatValue(frac) / Pow10(|frac| - 9)
  {
    PaddedDigits(frac);
    var a, b := frac[..9], frac[9..];
    assert FracPadded(frac) == a && frac == a + b;
    ValueOfConcat(a, b);
    FixedOfValue(b);
    Quotient(NatValue(frac), Pow10(|b|), NatValue(a), NatValue(b));
  }

  lemma Quotient(n: nat, m: nat, q: nat, r: nat)
    requires n == q * m + r && r < m
    ensures n / m == q
  {
    Bytes.DivModUnique(n, m, q, r);
  }

  // ---------------------------------------------------------------- what is accepted, and as what

  lemma DigitsAre(n: nat)
    requires n < 10
    ensures Digit(n) == "0123456789"[n]
    ensures NatValue([Digit(n)]) == n
  {
    assert [Digit(n)][..0] == [];
  }

  /** `s` is an optional minus sign, digits `w`, and, unless `f` is empty, a dot and digits `f`. */
  ghost predicate Reads(s: string, negative: bool, w: string, f: string) {
    && w != [] && AllDigits(w) && AllDigits(f)
    && s == (if negative then "-" else "") + (if f == [] then w else w + "." + f)
  }

  lemma ReadsBody(s: string, negative: bool, w: string, f: string)
    requires Reads(s, negative, w, f)
    ensures IsNegative(s) == negative
    ensures Body(s) == if f == [] then w else w + "." + f
    ensures Whole(Body(s)) == w && Frac(Body(s)) == f && IsDecimal(Body(s))
  {
    var body := if f == [] then w else w + "." + f;
    DotAfter(w, f);
    assert IsDigit(w[0]) && body[0] == w[0];
    if negative {
      Negated(body);
    } else {
      assert s == body;
    }
  }

  /** The strings that are accepted are exactly those. */
  lemma {:induction false} AcceptsExactly(s: string)
    ensures SolToLamports(s).Success? <==> exists negative, w, f :: Reads(s, negative, w, f)
  {
    if SolToLamports(s).Success? {
      Rejoin(Body(s));
      Resigned(s);
      assert Reads(s, IsNegative(s), Whole(Body(s)), Frac(Body(s)));
    }
    if negative, w, f :| Reads(s, negative, w, f) {
      ReadsBody(s, negative, w, f);
    }
  }

  /** The fraction in billionths, with digits beyond the ninth dropped. */
  function Billionths(f: string): int
    requires AllDigits(f)
  {
    if |f| <= 9 then ScaledUp(NatValue(f), 9 - |f|) else ScaledDown(NatValue(f), |f| - 9)
  }

  function ScaledUp(n: nat, k: nat): int {
    n * Pow10(k)
  }

  function ScaledDown(n: nat, k: nat): int {
    n / Pow10(k)
  }

  lemma PaddedIsBillionths(f: string)
    requires AllDigits(f)
    ensures AllDigits(FracPadded(f)) && NatValue(FracPadded(f)) == Billionths(f)
  {
    if |f| <= 9 {
      ShortFraction(f, 9 - |f|);
    } else {
      LongFraction(f);
    }
  }

  lemma MagnitudeOf(body: string)
    requires IsDecimal(body)
    ensures Magnitude(body) == NatValue(Whole(body)) * 1_000_000_000 + Billionths(Frac(body))
  {
    PaddedIsBillionths(Frac(body));
  }

  lemma ValueOf(s: string)
    requires IsDecimal(Body(s))
    ensures var n: int := Magnitude(Body(s));
            SolToLamports(s) == Success(if IsNegative(s) then -n else n)
  {
  }

  /** And they mean that many SOL in lamports. */
  lemma {:induction false} ParsedValue(s: string, negative: bool, w: string, f: string)
    requires Reads(s, negative, w, f)
    ensures var n: int := NatValue(w) * 1_000_000_000 + Billionths(f);
            SolToLamports(s) == Success(if negative then -n else n)
  {
    ReadsBody(s, negative, w, f);
    MagnitudeOf(Body(s));
    ValueOf(s);
  }
}
