/** sdk/src/borsh.ts: the incremental writer and reader. */
module BorshIo {
  import opened Bytes
  import opened Borsh
  import opened Wrappers

  function Lengths(chunks: seq<Octets>): nat {
    if chunks == [] then 0 else |chunks[0]| + Lengths(chunks[1..])
  }

  lemma {:induction false} FlattenAppend(chunks: seq<Octets>, b: Octets)
    ensures Flatten(chunks + [b]) == Flatten(chunks) + b
    ensures Lengths(chunks + [b]) == Lengths(chunks) + |b|
  {
    if chunks == [] {
      assert chunks + [b] == [b];
      assert Flatten([b]) == b + Flatten([]) == b;
    } else {
      assert (chunks + [b])[1..] == chunks[1..] + [b];
      FlattenAppend(chunks[1..], b);
    }
  }

  lemma {:induction false} LengthOfFlatten(chunks: seq<Octets>)
    ensures |Flatten(chunks)| == Lengths(chunks)
  {
    if chunks != [] {
      LengthOfFlatten(chunks[1..]);
    }
  }

  lemma {:induction false} FlattenPrefix(chunks: seq<Octets>, i: nat)
    requires i < |chunks|
    ensures Flatten(chunks[..i + 1]) == Flatten(chunks[..i]) + chunks[i]
    ensures Lengths(chunks[..i + 1]) == Lengths(chunks[..i]) + |chunks[i]| <= Lengths(chunks)
  {
    assert chunks[..i + 1] == chunks[..i] + [chunks[i]];
    FlattenAppend(chunks[..i], chunks[i]);
    LengthsSplit(chunks, i + 1);
  }

  lemma {:induction false} LengthsSplit(chunks: seq<Octets>, i: nat)
    requires i <= |chunks|
    ensures Lengths(chunks) == Lengths(chunks[..i]) + Lengths(chunks[i..])
  {
    if i > 0 {
      LengthsSplit(chunks[1..], i - 1);
      assert chunks[..i][1..] == chunks[1..][..i - 1] && chunks[i..] == chunks[1..][i - 1..];
    } else {
      assert chunks[..0] == [] && chunks[0..] == chunks;
    }
  }

  /** How many items precede the first one that is not 32 octets long. */
  function GoodItems(values: seq<Octets>): (n: nat)
    ensures n <= |values| && (n < |values| ==> |values[n]| != 32)
    ensures forall k :: 0 <= k < n ==> |values[k]| == 32
  {
    if values == [] || |values[0]| != 32 then 0 else 1 + GoodItems(values[1..])
  }

  lemma GoodItemsAt(values: seq<Octets>, i: nat)
    requires i < |values| && i <= GoodItems(values)
    ensures |values[i]| == 32 <==> i < GoodItems(values)
  {
  }

  lemma FlattenNext(values: seq<Octets>, i: nat, start: Octets)
    requires i < |values|
    ensures start + Flatten(values[..i + 1]) == (start + Flatten(values[..i])) + values[i]
  {
    FlattenPrefix(values, i);
    AppendAssoc(start, Flatten(values[..i]), values[i]);
  }

  class BorshWriter {
    var chunks: seq<Octets>
    var total: nat

    /** The running total is the length of what was pushed. */
    ghost predicate Valid()
      reads this
    {
      total == Lengths(chunks)
    }

    ghost function Contents(): Octets
      reads this
    {
      Flatten(chunks)
    }

    constructor ()
      ensures Valid() && Contents() == []
    {
      chunks, total := [], 0;
    }

    method Push(b: Octets)
      requires Valid()
      modifies this
      ensures Valid() && Contents() == old(Contents()) + b
    {
      FlattenAppend(chunks, b);
      chunks := chunks + [b];
      total := total + |b|;
    }

    method U8(value: int)
      requires Valid()
      modifies this
      ensures Valid() && Contents() == old(Contents()) + Encode(Val.U8(value))
    {
      assert LeBytes(1, value) == [value % 256] + LeBytes(0, value / 256);
      Push([value % 256]);
    }

    /** Four octets, each masked out of a shifted copy. */
    method U32(value: int)
      requires Valid()
      modifies this
      ensures Valid() && Contents() == old(Contents()) + Encode(Val.U32(value))
    {
      var b: Octets := [value % 256, value / 256 % 256, value / 0x1_0000 % 256, value / 0x100_0000 % 256];
      assert value / 256 / 256 == value / 0x1_0000 && value / 256 / 256 / 256 == value / 0x100_0000;
      LeBytesStep(4, value);
      LeBytesStep(3, value / 256);
      LeBytesStep(2, value / 256 / 256);
      LeBytesStep(1, value / 256 / 256 / 256);
      assert b == LeBytes(4, value);
      Push(b);
    }

    /** Eight octets; negative input throws, larger input loses its high octets. */
    method U64(value: int) returns (r: Result<(), string>)
      requires Valid()
      modifies this
      ensures Valid() && (r.Success? <==> value >= 0)
      ensures Contents() == old(Contents()) + if r.Success? then Encode(Val.U64(value)) else []
    {
      var b := U64LeBytes(value);
      if b.Failure? {
        return Failure("BorshWriter.u64: negative");
      }
      Push(b.value);
      r := Success(());
    }

    method Bool(value: bool)
      requires Valid()
      modifies this
      ensures Valid() && Contents() == old(Contents()) + Encode(Val.Bool(value))
    {
      Push([if value then 1 else 0]);
    }

    method FixedBytes(value: Octets, length: nat) returns (r: Result<(), string>)
      requires Valid()
      modifies this
      ensures Valid() && (r.Success? <==> |value| == length)
      ensures Contents() == old(Contents()) + if r.Success? then Encode(Fixed(value)) else []
    {
      if |value| != length {
        return Failure("BorshWriter.fixedBytes: wrong length");
      }
      Push(value);
      r := Success(());
    }

    method String(utf8: Octets)
      requires Valid()
      modifies this
      ensures Valid() && Contents() == old(Contents()) + Encode(Str(utf8))
    {
      U32(|utf8|);
      Push(utf8);
    }

    /** The count, then each item up to the first that is not 32 octets long, which throws. */
    method VecBytes32(values: seq<Octets>) returns (r: Result<(), string>)
      requires Valid()
      modifies this
      ensures Valid() && (r.Success? <==> forall v <- values :: |v| == 32)
      ensures Contents() == old(Contents()) + LeBytes(4, |values|) + Flatten(values[..GoodItems(values)])
      ensures r.Success? ==> GoodItems(values) == |values|
    {
      U32(|values|);
      ghost var start := Contents();
      assert start == start + Flatten([]);
      for i := 0 to |values|
        invariant i <= GoodItems(values)
        invariant Valid() && Contents() == start + Flatten(values[..i])
        invariant forall k :: 0 <= k < i ==> |values[k]| == 32
      {
        GoodItemsAt(values, i);
        var _ :- FixedBytes(values[i], 32);
        FlattenNext(values, i, start);
      }
      r := Success(());
    }

    /** One value, with the method for its type. */
    method Write(v: Val) returns (r: Result<(), string>)
      requires Valid()
      modifies this
      ensures Valid() && (r.Success? <==> (v.U64? ==> v.n >= 0))
      ensures r.Success? ==> Contents() == old(Contents()) + Encode(v)
    {
      r := Success(());
      match v
      case U8(n) => U8(n);
      case U32(n) => U32(n);
      case U64(n) => r := U64(n);
      case Bool(b) => Bool(b);
      case Fixed(b) => r := FixedBytes(b, |b|);
      case Str(b) => String(b);
      case Vec32(items) =>
        AppendAssoc(Contents(), LeBytes(4, |items|), Flatten(items));
        r := VecBytes32(items);
        assert items[..|items|] == items;
    }

    /** One buffer with all chunks at their offsets. */
    method ToBuffer() returns (out: array<Byte>)
      requires Valid()
      ensures fresh(out) && out[..] == Contents()
    {
      out := new Byte[total](_ => 0);
      var offset := 0;
      assert chunks[..0] == [] && out[..0] == [];
      for i := 0 to |chunks|
        invariant offset == Lengths(chunks[..i]) <= out.Length == Lengths(chunks)
        invariant out[..offset] == Flatten(chunks[..i])
      {
        FlattenPrefix(chunks, i);
        SetAt(out, offset, chunks[i]);
        offset := offset + |chunks[i]|;
      }
      assert chunks[..|chunks|] == chunks;
      assert out[..] == out[..out.Length];
    }
  }

  /** `out.set(c, offset)` */
  method SetAt(out: array<Byte>, offset: nat, c: Octets)
    requires offset + |c| <= out.Length
    modifies out
    ensures out[..offset + |c|] == old(out[..offset]) + c
  {
    ghost var before := out[..offset];
    for k := 0 to |c|
      invariant out[..offset + k] == before + c[..k]
    {
      out[offset + k] := c[k];
    }
    assert c[..|c|] == c;
  }

  class BorshReader {
    const buf: Octets
    var offset: nat

    predicate Valid()
      reads this
    {
      offset <= |buf|
    }

    /** What has not been read yet. */
    function Rest(): Octets
      requires Valid()
      reads this
    {
      buf[offset..]
    }

    constructor (buf: Octets)
      ensures Valid() && this.buf == buf && Rest() == buf
    {
      this.buf, offset := buf, 0;
    }

    method Remaining() returns (n: nat)
      requires Valid()
      ensures n == |Rest()|
    {
      n := |buf| - offset;
    }

    /** `require` and a slice: the next `length` octets, or an error. */
    method FixedBytes(length: nat) returns (r: Option<Octets>)
      requires Valid()
      modifies this
      ensures Valid()
      ensures match Take(length, old(Rest()))
              case None => r == None && offset == old(offset)
              case Some(Parsed(b, rest)) => r == Some(b) && Rest() == rest
    {
      if offset + length > |buf| {
        return None;
      }
      var out := buf[offset..offset + length];
      SliceOfRest(buf, offset, length);
      offset := offset + length;
      r := Some(out);
    }

    /** `u8`, `u32` and `u64`: the octets are combined from the most significant end. */
    method Word(width: nat) returns (r: Option<nat>)
      requires Valid()
      modifies this
      ensures Valid()
      ensures match Borsh.Word(width, old(Rest()))
              case None => r == None && offset == old(offset)
              case Some(Parsed(n, rest)) => r == Some(n) && Rest() == rest
    {
      if offset + width > |buf| {
        return None;
      }
      ghost var w := buf[offset..offset + width];
      SliceOfRest(buf, offset, width);
      var v: nat := 0;
      var i := width;
      assert w[width..] == [];
      while i > 0
        invariant 0 <= i <= width && v == LeValue(w[i..])
        invariant offset == old(offset)
      {
        i := i - 1;
        assert w[i..][1..] == w[i + 1..];
        v := v * 256 + buf[offset + i];
      }
      assert w[0..] == w;
      offset := offset + width;
      r := Some(v);
    }

    /** `vecBytes32`: a count, then that many items, failing at the first shortage. */
    method VecBytes32() returns (r: Option<seq<Bytes32>>)
      requires Valid()
      modifies this
      ensures Valid()
      ensures match Decode(TVec32, old(Rest()))
              case None => r == None
              case Some(Parsed(v, rest)) => v.Vec32? && r == Some(v.items) && Rest() == rest
    {
      var len := Word(4);
      if len == None {
        return None;
      }
      var out: seq<Bytes32> := [];
      ghost var start := Rest();
      PrependNone(Items(len.value, start));
      for i := 0 to len.value
        invariant Valid() && |out| == i
        invariant Items(len.value, start) == Prepend(out, Items(len.value - i, Rest()))
      {
        ghost var here := Rest();
        var item := FixedBytes(32);
        if item == None {
          assert |here| < 32;
          return None;
        }
        PrependOne(out, item.value, len.value - i, here);
        out := out + [item.value];
      }
      assert out + [] == out;
      r := Some(out);
    }

    /** One value of a type: dispatches to the typed readers. */
    method Read(ty: Ty) returns (r: Option<Val>)
      requires Valid()
      modifies this
      ensures Valid()
      ensures match Decode(ty, old(Rest()))
              case None => r == None
              case Some(Parsed(v, rest)) => r == Some(v) && Rest() == rest
    {
      match ty
      case TU8 =>
        var n := Word(1);
        r := if n == None then None else Some(Val.U8(n.value));
      case TU32 =>
        var n := Word(4);
        r := if n == None then None else Some(Val.U32(n.value));
      case TU64 =>
        var n := Word(8);
        r := if n == None then None else Some(Val.U64(n.value));
      case TBool =>
        var n := Word(1);
        r := if n == None || n.value > 1 then None else Some(Val.Bool(n.value == 1));
      case TFixed(len) =>
        var b := FixedBytes(len);
        r := if b == None then None else Some(Fixed(b.value));
      case TString =>
        var n := Word(4);
        if n == None {
          return None;
        }
        var b := FixedBytes(n.value);
        r := if b == None then None else Some(Str(b.value));
      case TVec32 =>
        var v := VecBytes32();
        r := if v == None then None else Some(Vec32(v.value));
    }

    /** A record, field by field, stopping at the first field that cannot be read. */
    method ReadAll(schema: seq<Ty>) returns (r: Option<seq<Val>>)
      requires Valid()
      modifies this
      ensures Valid()
      ensures match DecodeAll(schema, old(Rest()))
              case None => r == None
              case Some(Parsed(vs, rest)) => r == Some(vs) && Rest() == rest
    {
      var vs: seq<Val> := [];
      ghost var start := Rest();
      AfterNone(DecodeAll(schema, start));
      assert schema[0..] == schema;
      for i := 0 to |schema|
        invariant Valid() && |vs| == i
        invariant DecodeAll(schema, start) == After(vs, DecodeAll(schema[i..], Rest()))
      {
        ghost var here := Rest();
        var v := Read(schema[i]);
        assert schema[i..][0] == schema[i] && schema[i..][1..] == schema[i + 1..];
        if v == None {
          return None;
        }
        AfterOne(vs, v.value, DecodeAll(schema[i + 1..], Rest()));
        vs := vs + [v.value];
      }
      assert vs + [] == vs;
      r := Some(vs);
    }
  }

  /** Items already read, put in front of the outcome of reading the others. */
  function Prepend(out: seq<Bytes32>, p: Option<Parsed<seq<Bytes32>>>): Option<Parsed<seq<Bytes32>>> {
    match p case None => None case Some(Parsed(items, rest)) => Some(Parsed(out + items, rest))
  }

  lemma SliceOfRest(buf: Octets, offset: nat, n: nat)
    requires offset + n <= |buf|
    ensures Take(n, buf[offset..]) == Some(Parsed(buf[offset..offset + n], buf[offset + n..]))
  {
    assert buf[offset..][..n] == buf[offset..offset + n];
    assert buf[offset..][n..] == buf[offset + n..];
  }

  lemma PrependNone(p: Option<Parsed<seq<Bytes32>>>)
    ensures Prepend([], p) == p
  {
    if p.Some? {
      assert [] + p.value.value == p.value.value;
    }
  }

  lemma AfterNone(p: Option<Parsed<seq<Val>>>)
    ensures After([], p) == p
  {
    if p.Some? {
      assert [] + p.value.value == p.value.value;
    }
  }

  lemma PrependOne(out: seq<Bytes32>, item: Bytes32, n: nat, b: Octets)
    requires n > 0 && |b| >= 32 && item == b[..32]
    ensures Prepend(out, Items(n, b)) == Prepend(out + [item], Items(n - 1, b[32..]))
  {
    if Items(n - 1, b[32..]).Some? {
      var items := Items(n - 1, b[32..]).value.value;
      assert out + ([item] + items) == (out + [item]) + items;
    }
  }

  function After(vs: seq<Val>, p: Option<Parsed<seq<Val>>>): Option<Parsed<seq<Val>>> {
    match p case None => None case Some(Parsed(ws, rest)) => Some(Parsed(vs + ws, rest))
  }

  lemma AfterOne(vs: seq<Val>, v: Val, p: Option<Parsed<seq<Val>>>)
    ensures After(vs, After([v], p)) == After(vs + [v], p)
  {
    if p.Some? {
      assert vs + ([v] + p.value.value) == (vs + [v]) + p.value.value;
    }
  }

  lemma {:induction false} EncodeAllAppend(vs: seq<Val>, v: Val)
    ensures EncodeAll(vs + [v]) == EncodeAll(vs) + Encode(v)
  {
    if vs == [] {
      assert vs + [v] == [v];
      assert EncodeAll([v]) == Encode(v) + EncodeAll([]) == Encode(v);
    } else {
      assert (vs + [v])[1..] == vs[1..] + [v];
      EncodeAllAppend(vs[1..], v);
      AppendAssoc(Encode(vs[0]), EncodeAll(vs[1..]), Encode(v));
    }
  }

  /** Writing a record and reading it back with its schema returns it, with nothing remaining. */
  method WriteAndReadBack(vs: seq<Val>, schema: seq<Ty>) returns (back: Option<seq<Val>>, left: nat)
    requires HasAll(vs, schema) && AllInRange(vs)
    ensures back == Some(vs) && left == 0
  {
    var w := new BorshWriter();
    for i := 0 to |vs|
      invariant w.Valid() && fresh(w) && w.Contents() == EncodeAll(vs[..i])
    {
      assert vs[i].InRange();
      var _ := w.Write(vs[i]);
      EncodeAllAppend(vs[..i], vs[i]);
      assert vs[..i + 1] == vs[..i] + [vs[i]];
    }
    assert vs[..|vs|] == vs;
    var buffer := w.ToBuffer();
    var r := new BorshReader(buffer[..]);
    RecordRoundTrip(vs, schema, []);
    assert EncodeAll(vs) + [] == EncodeAll(vs);
    back := r.ReadAll(schema);
    left := r.Remaining();
  }
}
