// Variable-length numbers: seven bits a byte, least significant first (util/coding.cc, util/coding.h).

module Varints {
  import opened Keys
  import opened Coding

  function Varint(v: nat): (r: Bytes)
    ensures r != []
  {
    if v < 128 then [v as byte] else [(v % 128 + 128) as byte] + Varint(v / 128)
  }

  datatype Read = Read(value: nat, size: nat)

  /** The number at the start of `b`, if it ends there. */
  function ReadVarint(b: Bytes): (r: Option<Read>)
    ensures r.Some? ==> 0 < r.value.size <= |b|
  {
    if b == [] then None
    else if b[0] < 128 then Some(Read(b[0] as nat, 1))
    else
      match ReadVarint(b[1..])
      case None => None
      case Some(r) => Some(Read((b[0] as nat - 128) + 128 * r.value, r.size + 1))
  }

  /** A varint32 takes at most five bytes, and counts modulo 2^32. */
  function ReadVarint32(b: Bytes): (r: Option<Read>)
    ensures r.Some? ==> 0 < r.value.size <= |b|
  {
    var r := ReadVarint(if |b| < 5 then b else b[..5]);
    if r.None? then None else Some(Read(r.value.value % TWO_32, r.value.size))
  }

  lemma {:induction false} ReadsBack(v: nat, rest: Bytes)
    ensures ReadVarint(Varint(v) + rest) == Some(Read(v, |Varint(v)|))
    decreases v
  {
    if v >= 128 {
      assert (Varint(v) + rest)[1..] == Varint(v / 128) + rest;
      ReadsBack(v / 128, rest);
    }
  }

  predicate IsRead(b: Bytes, r: Option<Read>) {
    r == ReadVarint32(b)
  }

  /** The varint32 at the start of `b` is `value` and takes `size` bytes. */
  ghost predicate ReadsAs(b: Bytes, value: nat, size: nat) {
    forall r {:trigger IsRead(b, r)} | IsRead(b, r) :: r == Some(Read(value, size))
  }

  /** Reading what was written, whatever follows it. */
  lemma ReadsBack32(v: uint32, rest: Bytes)
    ensures ReadsAs(Varint(v) + rest, v, |Varint(v)|)
  {
    AtMostFive(v);
    var b := Varint(v) + rest;
    if |b| < 5 {
      ReadsBack(v, rest);
    } else {
      assert b[..5] == Varint(v) + rest[..5 - |Varint(v)|];
      ReadsBack(v, rest[..5 - |Varint(v)|]);
    }
  }

  lemma AtMostFive(v: uint32)
    ensures |Varint(v)| <= 5
  {
    var a, b, c, d := v / 128, v / 128 / 128, v / 128 / 128 / 128, v / 128 / 128 / 128 / 128;
    assert d < 128;
    assert |Varint(d)| == 1;
    assert |Varint(c)| <= 2;
    assert |Varint(b)| <= 3;
    assert |Varint(a)| <= 4;
  }

  /** The straight-line encoder. */
  method EncodeVarint32(v: uint32) returns (r: Bytes)
    ensures r == Varint(v)
  {
    Shifts(v);
    if v < 0x80 {
      r := [v as byte];
    } else if v < 0x4000 {
      r := [Low(v), (v / 0x80) as byte];
    } else if v < 0x20_0000 {
      r := [Low(v), Low(v / 0x80), (v / 0x4000) as byte];
    } else if v < 0x1000_0000 {
      r := [Low(v), Low(v / 0x80), Low(v / 0x4000), (v / 0x20_0000) as byte];
    } else {
      r := [Low(v), Low(v / 0x80), Low(v / 0x4000), Low(v / 0x20_0000), (v / 0x1000_0000) as byte];
    }
    Unrolled(v);
  }

  /** The low seven bits with the continuation bit set. */
  function Low(v: nat): byte {
    (v % 128 + 128) as byte
  }

  lemma Shifts(v: nat)
    ensures v / 0x80 / 0x80 == v / 0x4000 && v / 0x4000 / 0x80 == v / 0x20_0000 &&
            v / 0x20_0000 / 0x80 == v / 0x1000_0000
  {
  }

  lemma Unrolled(v: uint32)
    ensures v >= 0x80 ==> Varint(v) == [Low(v)] + Varint(v / 0x80)
    ensures v >= 0x4000 ==> Varint(v / 0x80) == [Low(v / 0x80)] + Varint(v / 0x4000)
    ensures v >= 0x20_0000 ==> Varint(v / 0x4000) == [Low(v / 0x4000)] + Varint(v / 0x20_0000)
    ensures v >= 0x1000_0000 ==> Varint(v / 0x20_0000) == [Low(v / 0x20_0000)] + Varint(v / 0x1000_0000)
  {
    Shifts(v);
  }

  /** GetVarint32Ptr with its one-byte fast path. */
  method GetVarint32Ptr(input: Bytes) returns (r: Option<Read>)
    ensures r == ReadVarint32(input)
  {
    if input != [] && input[0] < 128 {
      return Some(Read(input[0] as nat, 1));
    }
    r := GetVarint32PtrFallback(input);
  }

  method GetVarint32PtrFallback(input: Bytes) returns (r: Option<Read>)
    ensures r == ReadVarint32(input)
  {
    var p := if |input| < 5 then input else input[..5];
    ghost var whole := ReadVarint(p);
    var result: nat, unit: nat, i: nat := 0, 1, 0;
    while p != []
      invariant Continues(whole, ReadVarint(p), result, unit, i)
      decreases |p|
    {
      var b := p[0] as nat;
      ReadsOn(whole, p, result, unit, i);
      p := p[1..];
      i := i + 1;
      if b < 128 {
        return Some(Read((result + unit * b) % TWO_32, i));
      }
      result, unit := result + unit * (b - 128), unit * 128;
    }
    return None;
  }

  /** A varint64 takes at most ten bytes, and counts modulo 2^64. */
  function ReadVarint64(b: Bytes): (r: Option<Read>)
    ensures r.Some? ==> 0 < r.value.size <= |b|
  {
    var r := ReadVarint(if |b| < 10 then b else b[..10]);
    if r.None? then None else Some(Read(r.value.value % TWO_64, r.value.size))
  }

  lemma AtMostTen(v: uint64)
    ensures |Varint(v)| <= 10
  {
    var a := v / 128 / 128 / 128 / 128 / 128;
    assert a < TWO_32;
    AtMostFive(a);
    assert |Varint(v / 128 / 128 / 128 / 128)| <= 6;
    assert |Varint(v / 128 / 128 / 128)| <= 7;
    assert |Varint(v / 128 / 128)| <= 8;
    assert |Varint(v / 128)| <= 9;
  }

  predicate IsRead64(b: Bytes, r: Option<Read>) {
    r == ReadVarint64(b)
  }

  ghost predicate ReadsAs64(b: Bytes, value: nat, size: nat) {
    forall r {:trigger IsRead64(b, r)} | IsRead64(b, r) :: r == Some(Read(value, size))
  }

  lemma ReadsBack64(v: uint64, rest: Bytes)
    ensures ReadsAs64(Varint(v) + rest, v, |Varint(v)|)
  {
    AtMostTen(v);
    var b := Varint(v) + rest;
    if |b| < 10 {
      ReadsBack(v, rest);
    } else {
      assert b[..10] == Varint(v) + rest[..10 - |Varint(v)|];
      ReadsBack(v, rest[..10 - |Varint(v)|]);
    }
  }

  /** A value at the start of the input, and the input after it. */
  datatype Got<+T> = Got(value: T, rest: Bytes)

  function Get64(b: Bytes): (r: Option<Got<nat>>)
    ensures r.Some? ==> |r.value.rest| < |b| && r.value.value < TWO_64
  {
    match ReadVarint64(b)
    case None => None
    case Some(n) => Some(Got(n.value, b[n.size..]))
  }

  lemma Gets64(n: uint64, rest: Bytes)
    ensures Get64(Varint(n) + rest) == Some(Got(n, rest))
  {
    ReadsBack64(n, rest);
    assert IsRead64(Varint(n) + rest, ReadVarint64(Varint(n) + rest));
  }

  method EncodeVarint64(v: uint64) returns (r: Bytes)
    ensures r == Varint(v)
  {
    var n: nat := v;
    r := [];
    while n >= 128
      invariant r + Varint(n) == Varint(v)
    {
      assert r + [Low(n)] + Varint(n / 128) == r + Varint(n);
      r := r + [Low(n)];
      n := n / 128;
    }
    r := r + [n as byte];
  }

  method GetVarint64Ptr(input: Bytes) returns (r: Option<Read>)
    ensures r == ReadVarint64(input)
  {
    var p := if |input| < 10 then input else input[..10];
    ghost var whole := ReadVarint(p);
    var result: nat, unit: nat, i: nat := 0, 1, 0;
    while p != []
      invariant Continues(whole, ReadVarint(p), result, unit, i)
      decreases |p|
    {
      var b := p[0] as nat;
      ReadsOn(whole, p, result, unit, i);
      p := p[1..];
      i := i + 1;
      if b < 128 {
        return Some(Read((result + unit * b) % TWO_64, i));
      }
      result, unit := result + unit * (b - 128), unit * 128;
    }
    return None;
  }

  /** What is left to read adds to what was read, in units of 128^i. */
  ghost predicate Continues(whole: Option<Read>, rest: Option<Read>, result: nat, unit: nat, i: nat) {
    (whole.None? <==> rest.None?) &&
    (whole.Some? ==> whole.value.value == result + unit * rest.value.value && whole.value.size == i + rest.value.size)
  }

  lemma ReadsOn(whole: Option<Read>, b: Bytes, result: nat, unit: nat, i: nat)
    requires b != [] && Continues(whole, ReadVarint(b), result, unit, i)
    ensures b[0] >= 128 ==> Continues(whole, ReadVarint(b[1..]), result + unit * (b[0] as nat - 128), unit * 128, i + 1)
    ensures b[0] < 128 ==> whole == Some(Read(result + unit * b[0] as nat, i + 1))
  {
    if b[0] >= 128 && whole.Some? {
      var v := ReadVarint(b[1..]).value.value;
      assert unit * ((b[0] as nat - 128) + 128 * v) == unit * (b[0] as nat - 128) + unit * 128 * v;
    }
  }

  // ------------------------------------------------------------------ where a number ends

  lemma {:induction false} EndsAtLowByte(b: Bytes)
    ensures ReadVarint(b).None? <==> forall i | 0 <= i < |b| :: b[i] >= 128
    ensures ReadVarint(b).Some? ==>
              var n := ReadVarint(b).value.size;
              b[n - 1] < 128 && forall i | 0 <= i < n - 1 :: b[i] >= 128
    decreases b
  {
    if b != [] && b[0] >= 128 {
      EndsAtLowByte(b[1..]);
      if ReadVarint(b[1..]).None? {
        assert forall i | 1 <= i < |b| :: b[i] == b[1..][i - 1];
      } else {
        var n := ReadVarint(b[1..]).value.size;
        assert b[n] == b[1..][n - 1] && forall i | 1 <= i < n :: b[i] == b[1..][i - 1];
      }
    }
  }

  /** A number ends at its first byte below 128, and there is none if the first five, or ten, bytes are not. */
  lemma NumberEnds(b: Bytes)
    ensures ReadVarint32(b).None? <==> forall i | 0 <= i < |b| && i < 5 :: b[i] >= 128
    ensures ReadVarint64(b).None? <==> forall i | 0 <= i < |b| && i < 10 :: b[i] >= 128
    ensures ReadVarint32(b).Some? ==>
              b[ReadVarint32(b).value.size - 1] < 128 &&
              forall i | 0 <= i < ReadVarint32(b).value.size - 1 :: b[i] >= 128
  {
    EndsAtLowByte(if |b| < 5 then b else b[..5]);
    EndsAtLowByte(if |b| < 10 then b else b[..10]);
  }

  lemma KnownVarints()
    ensures Varint(0) == [0] && Varint(127) == [0x7f] && Varint(128) == [0x80, 1] && Varint(300) == [0xac, 2]
    ensures Varint(0xffff_ffff) == [0xff, 0xff, 0xff, 0xff, 0x0f]
  {
    assert Varint(0xf) == [0x0f] && Varint(0x7ff) == [0xff, 0x0f] && Varint(0x3_ffff) == [0xff, 0xff, 0x0f];
    assert Varint(0x1ff_ffff) == [0xff, 0xff, 0xff, 0x0f];
  }
}
