/**
 The SDK's borsh subset: what each value's encoding is, and a writer and a reader that
 produce and consume it incrementally.
*/
module Borsh {
  import opened Bytes
  import opened Wrappers

  datatype Ty = TU8 | TU32 | TU64 | TBool | TFixed(length: nat) | TString | TVec32

  /** Integers are unbounded here; the writer truncates them to their width. */
  datatype Val =
    | U8(n: int)
    | U32(n: int)
    | U64(n: int)
    | Bool(b: bool)
    | Fixed(bytes: Octets)
    | Str(utf8: Octets)
    | Vec32(items: seq<Bytes32>)
  {
    predicate Has(ty: Ty) {
      match this
      case U8(_) => ty == TU8
      case U32(_) => ty == TU32
      case U64(_) => ty == TU64
      case Bool(_) => ty == TBool
      case Fixed(b) => ty == TFixed(|b|)
      case Str(_) => ty == TString
      case Vec32(_) => ty == TVec32
    }

    /** The value fits its width, and its length fits the length prefix. */
    predicate InRange() {
      match this
      case U8(n) => 0 <= n < 256
      case U32(n) => 0 <= n <= U32_MAX
      case U64(n) => 0 <= n <= U64_MAX
      case Bool(_) => true
      case Fixed(_) => true
      case Str(b) => |b| <= U32_MAX
      case Vec32(v) => |v| <= U32_MAX
    }
  }

  function Flatten(items: seq<Octets>): Octets {
    if items == [] then [] else items[0] + Flatten(items[1..])
  }

  function Encode(v: Val): Octets {
    match v
    case U8(n) => LeBytes(1, n)
    case U32(n) => LeBytes(4, n)
    case U64(n) => LeBytes(8, n)
    case Bool(b) => [if b then 1 else 0]
    case Fixed(b) => b
    case Str(b) => LeBytes(4, |b|) + b
    case Vec32(items) => LeBytes(4, |items|) + Flatten(items)
  }

  function EncodeAll(vs: seq<Val>): Octets {
    if vs == [] then [] else Encode(vs[0]) + EncodeAll(vs[1..])
  }

  // ---------------------------------------------------------------- octet by octet

  /** `b` is a little-endian word of `n` octets for `v`, reduced to its width. */
  ghost predicate IsWord(b: Octets, n: nat, v: int) {
    |b| == n && forall k :: 0 <= k < n ==> b[k] == (v / Pow256(k)) % 256
  }

  lemma WordIs(n: nat, v: int)
    ensures IsWord(LeBytes(n, v), n, v)
  {
    forall k | 0 <= k < n ensures LeBytes(n, v)[k] == (v / Pow256(k)) % 256 {
      LeBytesAt(n, v, k);
    }
  }

  lemma {:induction false} FlattenAt(items: seq<Bytes32>, k: nat)
    requires k < |items|
    ensures |Flatten(items)| == 32 * |items|
    ensures Flatten(items)[32 * k..32 * k + 32] == items[k]
  {
    FlattenLength(items);
    if k == 0 {
      assert Flatten(items)[..32] == items[0];
    } else {
      FlattenLength(items[1..]);
      FlattenAt(items[1..], k - 1);
      assert Flatten(items)[32..] == Flatten(items[1..]);
      assert Flatten(items)[32 * k..32 * k + 32] == Flatten(items)[32..][32 * (k - 1)..32 * (k - 1) + 32];
    }
  }

  lemma {:induction false} FlattenLength(items: seq<Bytes32>)
    ensures |Flatten(items)| == 32 * |items|
  {
    if items != [] {
      FlattenLength(items[1..]);
    }
  }

  /** The octets of every encoding: words are little-endian, lengths and counts take four octets in front. */
  lemma {:induction false} EncodingLayout(v: Val)
    ensures var b := Encode(v);
            match v
            case U8(n) => IsWord(b, 1, n)
            case U32(n) => IsWord(b, 4, n)
            case U64(n) => IsWord(b, 8, n)
            case Bool(x) => |b| == 1 && b[0] == if x then 1 else 0
            case Fixed(f) => b == f
            case Str(f) => |b| == 4 + |f| && IsWord(b[..4], 4, |f|) && b[4..] == f
            case Vec32(items) =>
              && |b| == 4 + 32 * |items| && IsWord(b[..4], 4, |items|)
              && forall k :: 0 <= k < |items| ==> b[4 + 32 * k..4 + 32 * k + 32] == items[k]
  {
    match v
    case U8(n) => WordIs(1, n);
    case U32(n) => WordIs(4, n);
    case U64(n) => WordIs(8, n);
    case Bool(_) =>
    case Fixed(_) =>
    case Str(f) => StrLayout(f);
    case Vec32(items) => Vec32Layout(items);
  }

  lemma StrLayout(f: Octets)
    ensures var b := Encode(Str(f));
            |b| == 4 + |f| && IsWord(b[..4], 4, |f|) && b[4..] == f
  {
    var b, w := Encode(Str(f)), LeBytes(4, |f|);
    WordIs(4, |f|);
    assert b[..4] == w;
  }

  lemma Vec32Layout(items: seq<Bytes32>)
    ensures var b := Encode(Vec32(items));
            && |b| == 4 + 32 * |items| && IsWord(b[..4], 4, |items|)
            && forall k :: 0 <= k < |items| ==> b[4 + 32 * k..4 + 32 * k + 32] == items[k]
  {
    var b, w, f := Encode(Vec32(items)), LeBytes(4, |items|), Flatten(items);
    WordIs(4, |items|);
    FlattenLength(items);
    assert b[..4] == w && b[4..] == f;
    forall k | 0 <= k < |items| ensures b[4 + 32 * k..4 + 32 * k + 32] == items[k] {
      FlattenAt(items, k);
      assert b[4 + 32 * k..4 + 32 * k + 32] == b[4..][32 * k..32 * k + 32];
    }
  }

  // ---------------------------------------------------------------- decoding

  /** A value read off the front of some octets, and what is left of them. */
  datatype Parsed<+T> = Parsed(value: T, rest: Octets)

  function Take(n: nat, b: Octets): Option<Parsed<Octets>> {
    if n <= |b| then Some(Parsed(b[..n], b[n..])) else None
  }

  function Word(width: nat, b: Octets): Option<Parsed<nat>> {
    match Take(width, b)
    case None => None
    case Some(Parsed(w, rest)) => Some(Parsed(LeValue(w), rest))
  }

  function Items(n: nat, b: Octets): Option<Parsed<seq<Bytes32>>> {
    if n == 0 then Some(Parsed([], b))
    else if |b| < 32 then None
    else
      match Items(n - 1, b[32..])
      case None => None
      case Some(Parsed(items, rest)) => Some(Parsed([b[..32]] + items, rest))
  }

  function Decode(ty: Ty, b: Octets): Option<Parsed<Val>> {
    match ty
    case TU8 => (match Word(1, b) case None => None case Some(Parsed(n, rest)) => Some(Parsed(U8(n), rest)))
    case TU32 => (match Word(4, b) case None => None case Some(Parsed(n, rest)) => Some(Parsed(U32(n), rest)))
    case TU64 => (match Word(8, b) case None => None case Some(Parsed(n, rest)) => Some(Parsed(U64(n), rest)))
    case TBool =>
      (match Word(1, b)
       case None => None
       case Some(Parsed(n, rest)) => if n <= 1 then Some(Parsed(Bool(n == 1), rest)) else None)
    case TFixed(len) =>
      (match Take(len, b) case None => None case Some(Parsed(w, rest)) => Some(Parsed(Fixed(w), rest)))
    case TString =>
      (match Word(4, b)
       case None => None
       case Some(Parsed(n, rest)) =>
         match Take(n, rest) case None => None case Some(Parsed(w, rest')) => Some(Parsed(Str(w), rest')))
    case TVec32 =>
      (match Word(4, b)
       case None => None
       case Some(Parsed(n, rest)) =>
         match Items(n, rest) case None => None case Some(Parsed(v, rest')) => Some(Parsed(Vec32(v), rest')))
  }

  function DecodeAll(schema: seq<Ty>, b: Octets): Option<Parsed<seq<Val>>> {
    if schema == [] then Some(Parsed([], b))
    else
      match Decode(schema[0], b)
      case None => None
      case Some(Parsed(v, rest)) =>
        match DecodeAll(schema[1..], rest)
        case None => None
        case Some(Parsed(vs, rest')) => Some(Parsed([v] + vs, rest'))
  }

  ghost predicate HasAll(vs: seq<Val>, schema: seq<Ty>) {
    |vs| == |schema| && forall i :: 0 <= i < |vs| ==> vs[i].Has(schema[i])
  }

  ghost predicate AllInRange(vs: seq<Val>) {
    forall i :: 0 <= i < |vs| ==> vs[i].InRange()
  }

  // ---------------------------------------------------------------- round trips

  lemma TakeFront(w: Octets, rest: Octets)
    ensures Take(|w|, w + rest) == Some(Parsed(w, rest))
  {
    assert (w + rest)[..|w|] == w && (w + rest)[|w|..] == rest;
  }

  lemma WordFront(width: nat, n: int, rest: Octets)
    ensures Word(width, LeBytes(width, n) + rest) == Some(Parsed(n % Pow256(width), rest))
  {
    TakeFront(LeBytes(width, n), rest);
    LeValueOfBytes(width, n);
  }

  lemma {:induction false} ItemsFront(items: seq<Bytes32>, rest: Octets)
    ensures Items(|items|, Flatten(items) + rest) == Some(Parsed(items, rest))
  {
    if items == [] {
      assert Flatten(items) + rest == rest;
    } else {
      ItemsFront(items[1..], rest);
      AppendAssoc(items[0], Flatten(items[1..]), rest);
      FirstItem(items[0], items[1..], Flatten(items[1..]) + rest, rest);
      assert items == [items[0]] + items[1..];
    }
  }

  lemma FirstItem(item: Bytes32, items: seq<Bytes32>, more: Octets, rest: Octets)
    requires Items(|items|, more) == Some(Parsed(items, rest))
    ensures Items(|items| + 1, item + more) == Some(Parsed([item] + items, rest))
  {
    TakeFront(item, more);
  }

  /** What a written value reads back as: integers modulo their width. */
  function Truncated(v: Val): Val {
    match v
    case U8(n) => U8(n % 256)
    case U32(n) => U32(n % (U32_MAX + 1))
    case U64(n) => U64(n % (U64_MAX + 1))
    case _ => v
  }

  /** A length prefix in range reads back, whatever follows. */
  lemma PrefixFront(n: nat, body: Octets, rest: Octets)
    requires n <= U32_MAX
    ensures Word(4, (LeBytes(4, n) + body) + rest) == Some(Parsed(n, body + rest))
  {
    Pow256Widths();
    WordFront(4, n, body + rest);
    SmallMod(n, U32_MAX + 1);
    AppendAssoc(LeBytes(4, n), body, rest);
  }

  lemma StrFront(b: Octets, rest: Octets)
    requires |b| <= U32_MAX
    ensures Decode(TString, Encode(Str(b)) + rest) == Some(Parsed(Str(b), rest))
  {
    PrefixFront(|b|, b, rest);
    TakeFront(b, rest);
  }

  lemma Vec32Front(items: seq<Bytes32>, rest: Octets)
    requires |items| <= U32_MAX
    ensures Decode(TVec32, Encode(Vec32(items)) + rest) == Some(Parsed(Vec32(items), rest))
  {
    PrefixFront(|items|, Flatten(items), rest);
    ItemsFront(items, rest);
  }

  /** Reading the encoding of a value, whatever follows it, gives the value back, truncated. */
  lemma ReadBack(v: Val, ty: Ty, rest: Octets)
    requires v.Has(ty) && (v.Str? ==> |v.utf8| <= U32_MAX) && (v.Vec32? ==> |v.items| <= U32_MAX)
    ensures Decode(ty, Encode(v) + rest) == Some(Parsed(Truncated(v), rest))
  {
    Pow256Widths();
    match v
    case U8(n) => WordFront(1, n, rest);
    case U32(n) => WordFront(4, n, rest);
    case U64(n) => WordFront(8, n, rest);
    case Bool(b) => BoolFront(b, rest);
    case Fixed(b) => TakeFront(b, rest);
    case Str(b) => StrFront(b, rest);
    case Vec32(items) => Vec32Front(items, rest);
  }

  lemma BoolFront(b: bool, rest: Octets)
    ensures Decode(TBool, Encode(Bool(b)) + rest) == Some(Parsed(Bool(b), rest))
  {
    var w := Encode(Bool(b));
    TakeFront(w, rest);
    assert w[1..] == [];
    assert LeValue(w) == w[0];
  }

  lemma TruncatedInRange(v: Val)
    ensures v.InRange() ==> Truncated(v) == v
  {
  }

  lemma TakeExact(n: nat, b: Octets)
    requires Take(n, b).Some?
    ensures var Parsed(w, rest) := Take(n, b).value;
            b == w + rest && |w| == n
  {
  }

  lemma WordExact(width: nat, b: Octets)
    requires Word(width, b).Some?
    ensures var Parsed(n, rest) := Word(width, b).value;
            n < Pow256(width) && b == LeBytes(width, n) + rest
  {
    TakeExact(width, b);
    LeBytesOfValue(Take(width, b).value.value);
  }

  lemma {:induction false} ItemsExact(n: nat, b: Octets)
    requires Items(n, b).Some?
    ensures |Items(n, b).value.value| == n
    ensures b == Flatten(Items(n, b).value.value) + Items(n, b).value.rest
    decreases n
  {
    if n > 0 {
      ItemsExact(n - 1, b[32..]);
      var Parsed(items, rest) := Items(n, b).value;
      assert items[1..] == Items(n - 1, b[32..]).value.value;
      assert b == b[..32] + b[32..];
      assert Flatten(items) + rest == b[..32] + (Flatten(items[1..]) + rest);
    }
  }

  lemma StrExact(b: Octets)
    requires Decode(TString, b).Some?
    ensures var Parsed(v, rest) := Decode(TString, b).value;
            v.Str? && v.InRange() && b == Encode(v) + rest
  {
    Pow256Widths();
    var Parsed(v, rest) := Decode(TString, b).value;
    var Parsed(n, more) := Word(4, b).value;
    WordExact(4, b);
    TakeExact(n, more);
    assert LeBytes(4, n) + (v.utf8 + rest) == Encode(v) + rest;
  }

  lemma Vec32Exact(b: Octets)
    requires Decode(TVec32, b).Some?
    ensures var Parsed(v, rest) := Decode(TVec32, b).value;
            v.Vec32? && v.InRange() && b == Encode(v) + rest
  {
    Pow256Widths();
    var Parsed(v, rest) := Decode(TVec32, b).value;
    var Parsed(n, more) := Word(4, b).value;
    WordExact(4, b);
    ItemsExact(n, more);
    assert LeBytes(4, n) + (Flatten(v.items) + rest) == Encode(v) + rest;
  }

  /** The reader accepts nothing but encodings: what it read, written again, is what it consumed. */
  lemma DecodeExact(ty: Ty, b: Octets)
    requires Decode(ty, b).Some?
    ensures var Parsed(v, rest) := Decode(ty, b).value;
            v.Has(ty) && v.InRange() && b == Encode(v) + rest
  {
    Pow256Widths();
    match ty
    case TU8 => WordExact(1, b);
    case TU32 => WordExact(4, b);
    case TU64 => WordExact(8, b);
    case TBool => BoolExact(b);
    case TFixed(n) => TakeExact(n, b);
    case TString => StrExact(b);
    case TVec32 => Vec32Exact(b);
  }

  lemma BoolExact(b: Octets)
    requires Decode(TBool, b).Some?
    ensures b == Encode(Decode(TBool, b).value.value) + Decode(TBool, b).value.rest
  {
    var w := b[..1];
    assert w[1..] == [];
    assert LeValue(w) == w[0];
    assert b == [b[0]] + b[1..];
  }

  /**
   The round trip, with its exact condition: for any value of a type and anything after it,
   reading what was written returns that value and leaves the rest, if and only if the value
   fits its width.
  */
  lemma RoundTripExact(v: Val, ty: Ty, rest: Octets)
    requires v.Has(ty)
    ensures Decode(ty, Encode(v) + rest) == Some(Parsed(v, rest)) <==> v.InRange()
  {
    if v.InRange() {
      ReadBack(v, ty, rest);
      TruncatedInRange(v);
    } else if Decode(ty, Encode(v) + rest).Some? {
      DecodeExact(ty, Encode(v) + rest);
    }
  }

  /** Whole records round-trip, with nothing left over but what followed. */
  lemma {:induction false} RecordRoundTrip(vs: seq<Val>, schema: seq<Ty>, rest: Octets)
    requires HasAll(vs, schema) && AllInRange(vs)
    ensures DecodeAll(schema, EncodeAll(vs) + rest) == Some(Parsed(vs, rest))
  {
    if vs == [] {
      assert EncodeAll(vs) + rest == rest;
    } else {
      RecordRoundTrip(vs[1..], schema[1..], rest);
      FirstValue(vs[0], vs[1..], schema, rest);
      assert vs == [vs[0]] + vs[1..];
    }
  }

  lemma FirstValue(v: Val, vs: seq<Val>, schema: seq<Ty>, rest: Octets)
    requires schema != [] && v.Has(schema[0]) && v.InRange()
    requires DecodeAll(schema[1..], EncodeAll(vs) + rest) == Some(Parsed(vs, rest))
    ensures DecodeAll(schema, EncodeAll([v] + vs) + rest) == Some(Parsed([v] + vs, rest))
  {
    assert ([v] + vs)[1..] == vs;
    AppendAssoc(Encode(v), EncodeAll(vs), rest);
    RoundTripExact(v, schema[0], EncodeAll(vs) + rest);
  }

  lemma RecordStep(schema: seq<Ty>, b: Octets)
    requires schema != [] && DecodeAll(schema, b).Some?
    ensures Decode(schema[0], b).Some?
    ensures var Parsed(v, more) := Decode(schema[0], b).value;
            && DecodeAll(schema[1..], more).Some?
            && var Parsed(vs, rest) := DecodeAll(schema[1..], more).value;
            DecodeAll(schema, b) == Some(Parsed([v] + vs, rest))
  {
  }

  lemma {:induction false} RecordExact(schema: seq<Ty>, b: Octets)
    requires DecodeAll(schema, b).Some?
    ensures var Parsed(vs, rest) := DecodeAll(schema, b).value;
            HasAll(vs, schema) && AllInRange(vs) && b == EncodeAll(vs) + rest
  {
    if schema != [] {
      RecordStep(schema, b);
      var Parsed(v, more) := Decode(schema[0], b).value;
      var Parsed(vs, rest) := DecodeAll(schema[1..], more).value;
      DecodeExact(schema[0], b);
      RecordExact(schema[1..], more);
      RecordCons(v, vs, schema, rest);
    }
  }

  lemma RecordCons(v: Val, vs: seq<Val>, schema: seq<Ty>, rest: Octets)
    requires schema != [] && v.Has(schema[0]) && v.InRange() && HasAll(vs, schema[1..]) && AllInRange(vs)
    ensures HasAll([v] + vs, schema) && AllInRange([v] + vs)
    ensures EncodeAll([v] + vs) + rest == Encode(v) + (EncodeAll(vs) + rest)
  {
    var ws := [v] + vs;
    assert ws[1..] == vs && ws[0] == v;
    assert EncodeAll(ws) == Encode(v) + EncodeAll(vs);
    forall i | 0 <= i < |ws| ensures ws[i].Has(schema[i]) && ws[i].InRange() {
      if i > 0 {
        assert ws[i] == vs[i - 1] && schema[i] == schema[1..][i - 1];
      }
    }
    AppendAssoc(Encode(v), EncodeAll(vs), rest);
  }

  lemma AppendAssoc(a: Octets, b: Octets, c: Octets)
    ensures (a + b) + c == a + (b + c)
  {
  }

  /** Two records of one schema never share an encoding, nor is one a prefix of the other. */
  lemma EncodingsAreDistinct(vs: seq<Val>, ws: seq<Val>, schema: seq<Ty>, r: Octets, q: Octets)
    requires HasAll(vs, schema) && HasAll(ws, schema) && AllInRange(vs) && AllInRange(ws)
    requires EncodeAll(vs) + r == EncodeAll(ws) + q
    ensures vs == ws && r == q
  {
    RecordRoundTrip(vs, schema, r);
    RecordRoundTrip(ws, schema, q);
  }
}
