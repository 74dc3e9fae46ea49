// Decoding what the nanopb encoder wrote (nanopb/pb_encode.c, nanopb/pb_decode.c).

module NanopbRoundTrip {
  import opened Bits
  import opened Keys
  import opened Coding
  import opened Varints
  import opened NanopbFields
  import opened NanopbEncode
  import opened NanopbDecode

  // ------------------------------------------------------------------ numbers come back

  /** The bit positions at which a 32-bit varint continues. */
  predicate Continues32(bitpos: nat) {
    bitpos == 0 || bitpos == 7 || bitpos == 14 || bitpos == 21 || bitpos == 28
  }

  lemma Units(bitpos: nat)
    requires Continues32(bitpos)
    ensures Power(bitpos) == if bitpos == 0 then 1 else if bitpos == 7 then 0x80 else if bitpos == 14 then 0x4000
                             else if bitpos == 21 then 0x20_0000 else 0x1000_0000
  {
    assert Power(7) == 0x80;
    assert Power(14) == 0x4000;
    assert Power(21) == 0x20_0000;
    assert Power(28) == 0x1000_0000;
  }

  lemma SplitProduct(v: nat, unit: nat)
    ensures v % 128 * unit + v / 128 * (128 * unit) == v * unit && v % 128 * unit <= v * unit
  {
    var low, q := v % 128, v / 128;
    assert v == low + 128 * q;
    assert (low + 128 * q) * unit == low * unit + 128 * q * unit;
    assert q * (128 * unit) == 128 * q * unit;
  }

  predicate Totals(v: nat, result: nat, bitpos: nat, total: nat) {
    total == result + v * Power(bitpos)
  }

  lemma LastUnit(v: nat, result: nat, bitpos: nat, total: nat)
    requires Continues32(bitpos) && Totals(v, result, bitpos, total) && total < TWO_32
    ensures bitpos == 28 ==> v < 16
  {
    Units(bitpos);
  }

  /** One more byte of a number: what it adds, and what is left. */
  lemma NextUnit(v: nat, result: nat, bitpos: nat, total: nat) returns (sum: nat)
    requires Continues32(bitpos) && v >= 128 && Totals(v, result, bitpos, total) && total < TWO_32
    ensures Continues32(bitpos + 7) && bitpos < 28 && sum <= total
    ensures Totals(v % 128, result, bitpos, sum) && Totals(v / 128, sum, bitpos + 7, total)
  {
    LastUnit(v, result, bitpos, total);
    TwoUnits(bitpos);
    sum := ProductParts(v, result, Power(bitpos), total);
  }

  lemma TwoUnits(bitpos: nat)
    requires Continues32(bitpos) && bitpos != 28
    ensures Continues32(bitpos + 7) && Power(bitpos + 7) == 128 * Power(bitpos)
  {
    Units(bitpos);
    Units(bitpos + 7);
  }

  lemma ProductParts(v: nat, result: nat, unit: nat, total: nat) returns (sum: nat)
    requires total == result + v * unit
    ensures sum == result + v % 128 * unit <= total && total == sum + v / 128 * (128 * unit)
  {
    SplitProduct(v, unit);
    sum := result + v % 128 * unit;
  }

  lemma {:induction false} RestOfVarint32Back(v: nat, result: nat, bitpos: nat, total: nat, rest: Bytes)
    requires Continues32(bitpos) && result < TWO_32 && Totals(v, result, bitpos, total) && total < TWO_32
    ensures RestOfVarint32(Varint(v) + rest, result, bitpos) == Some(Got(total, rest))
    decreases v
  {
    if v < 128 {
      LastUnit(v, result, bitpos, total);
      LastOctet(v, result, bitpos, total, rest);
    } else {
      var sum := NextUnit(v, result, bitpos, total);
      NextOctet(v, result, bitpos, sum, rest);
      RestOfVarint32Back(v / 128, sum, bitpos + 7, total, rest);
    }
  }

  lemma FirstByte(x: byte, more: Bytes, rest: Bytes)
    ensures var b := ([x] + more) + rest; b != [] && b[0] == x && b[1..] == more + rest
  {
  }

  lemma VarintOctets(v: nat, rest: Bytes)
    ensures var b := Varint(v) + rest;
      b != [] && (v < 128 ==> b[0] as nat == v && b[1..] == rest) &&
      (v >= 128 ==> b[0] as nat == v % 128 + 128 && b[1..] == Varint(v / 128) + rest)
  {
    if v < 128 {
      FirstByte(v as byte, [], rest);
      assert [v as byte] + [] == Varint(v) && [] + rest == rest;
    } else {
      FirstByte((v % 128 + 128) as byte, Varint(v / 128), rest);
    }
  }

  lemma ShiftedFits(result: nat, low: nat, bitpos: nat, sum: nat)
    requires Totals(low, result, bitpos, sum) && sum < TWO_32
    ensures Shifted(result, low, bitpos) == sum
  {
  }

  lemma OctetAdds(octet: nat, low: nat, result: nat, bitpos: nat)
    requires octet == low || octet == low + 128
    requires low < 128 && bitpos < 32 && result < TWO_32
    ensures AddedOctet(octet, result, bitpos) == Some(Shifted(result, low, bitpos)) &&
            NextPosition(bitpos) == bitpos + 7
  {
  }

  lemma MoreOctets(b: Bytes, low: nat, result: nat, bitpos: nat)
    requires b != [] && low < 128 && b[0] as nat == low + 128 && result < TWO_32 && bitpos < 28
    ensures RestOfVarint32(b, result, bitpos) == RestOfVarint32(b[1..], Shifted(result, low, bitpos), bitpos + 7)
  {
    OctetAdds(b[0] as nat, low, result, bitpos);
  }

  lemma EndsHere(b: Bytes, result: nat, bitpos: nat)
    requires b != [] && b[0] < 128 && result < TWO_32 && bitpos <= 28 && (bitpos == 28 ==> b[0] < 16)
    ensures RestOfVarint32(b, result, bitpos) == Some(Got(Shifted(result, b[0] as nat, bitpos), b[1..]))
  {
    OctetAdds(b[0] as nat, b[0] as nat, result, bitpos);
  }

  lemma LastOctet(v: nat, result: nat, bitpos: nat, total: nat, rest: Bytes)
    requires bitpos <= 28 && result < TWO_32 && v < 128 && Totals(v, result, bitpos, total) && total < TWO_32
    requires bitpos == 28 ==> v < 16
    ensures RestOfVarint32(Varint(v) + rest, result, bitpos) == Some(Got(total, rest))
  {
    VarintOctets(v, rest);
    EndsHere(Varint(v) + rest, result, bitpos);
    ShiftedFits(result, v, bitpos, total);
  }

  lemma NextOctet(v: nat, result: nat, bitpos: nat, sum: nat, rest: Bytes)
    requires bitpos < 28 && result < TWO_32 && v >= 128 && Totals(v % 128, result, bitpos, sum) && sum < TWO_32
    ensures RestOfVarint32(Varint(v) + rest, result, bitpos) == RestOfVarint32(Varint(v / 128) + rest, sum, bitpos + 7)
  {
    VarintOctets(v, rest);
    MoreOctets(Varint(v) + rest, v % 128, result, bitpos);
    ShiftedFits(result, v % 128, bitpos, sum);
  }

  lemma Varint32Back(v: uint32, rest: Bytes)
    ensures DecodedVarint32(Varint(v) + rest) == Some(Got(v as nat, rest))
  {
    RestOfVarint32Back(v, 0, 0, v, rest);
  }

  // ------------------------------------------------------------------ well-formed descriptors and messages

  predicate FieldOk(fields: seq<Field>, i: nat)
    requires i < |fields|
    decreases fields, 0
  {
    var f := fields[i];
    0 < f.tag < 0x2000_0000 &&
    (f.ltype.VarintType? || f.ltype.UVarintType? || f.ltype.SVarintType? ==> IsIntSize(f.dataSize)) &&
    (f.htype.Singular? ==> f.initial.None?) &&
    (f.htype.Oneof? ==> f.htype.home <= i && fields[f.htype.home].htype == f.htype) &&
    (f.ltype.SubmessageType? ==> WellFormed(f.sub))
  }

  /** What the generator makes of a message type: distinct tags below 2^29, integers of 1, 2, 4 or 8 bytes, no default
      values in proto3, and the same of every submessage. */
  predicate WellFormed(fields: seq<Field>)
    decreases fields, 1
  {
    DistinctTags(fields) && forall i {:trigger FieldOk(fields, i)} | 0 <= i < |fields| :: FieldOk(fields, i)
  }

  /** Half of the numbers of that size are negative. */
  predicate FitsSigned(n: int, size: nat) {
    -(Modulus(size) / 2) <= n < Modulus(size) / 2
  }

  predicate FitsNumber(f: Field, n: int) {
    match f.ltype
    case BoolType => n == 0 || n == 1
    case VarintType => FitsSigned(n, f.dataSize)
    case SVarintType => FitsSigned(n, f.dataSize)
    case UVarintType => 0 <= n < Modulus(f.dataSize)
    case Fixed32Type => 0 <= n < TWO_32
    case _ => 0 <= n < TWO_64
  }

  predicate FitsBlob(f: Field, b: Bytes) {
    match f.ltype
    case BytesType => |b| + BYTES_OFFSET <= f.dataSize
    case StringType => |b| < f.dataSize && 0 !in b
    case _ => |b| == f.dataSize
  }

  predicate ValueOk(fields: seq<Field>, i: nat, v: Value)
    requires i < |fields|
    decreases fields, 0
  {
    var f := fields[i];
    if Packable(f.ltype) then v.Int? && FitsNumber(f, v.n)
    else if f.ltype.SubmessageType? then v.Message? && MessageOk(f.sub, v.slots)
    else v.Blob? && FitsBlob(f, v.bytes)
  }

  predicate ItemsOk(fields: seq<Field>, i: nat, items: seq<Value>)
    requires i < |fields|
    decreases fields, 1
  {
    forall v | v in items :: ValueOk(fields, i, v)
  }

  predicate SlotOk(fields: seq<Field>, i: nat, s: Slot)
    requires i < |fields|
    decreases fields, 2
  {
    match fields[i].htype
    case Required => s.Single? && ValueOk(fields, i, s.value)
    case Singular => s.Single? && ValueOk(fields, i, s.value)
    case Optional => s.Flagged? && (s.has ==> ValueOk(fields, i, s.value))
    case Repeated => s.Array? && |s.items| <= fields[i].arraySize && ItemsOk(fields, i, s.items)
    case FixedCount => s.Array? && |s.items| == fields[i].arraySize && ItemsOk(fields, i, s.items)
    case Oneof(home) => if home == i then UnionOk(fields, i, s) else s.Shared?
  }

  /** The union of a oneof is unused or holds a value of the member its tag names. */
  predicate UnionOk(fields: seq<Field>, home: nat, s: Slot)
    decreases fields, 1
  {
    s.Union? &&
    (s.which != 0 ==>
       var m := IndexOf(fields, s.which, 0);
       m.Some? && fields[m.value].htype == Oneof(home) && ValueOk(fields, m.value, s.value))
  }

  /** A message whose values are within the limits of its descriptor. */
  predicate MessageOk(fields: seq<Field>, slots: seq<Slot>)
    decreases fields, 3
  {
    |slots| == |fields| && forall i {:trigger SlotOk(fields, i, slots[i])} | 0 <= i < |fields| ::
      SlotOk(fields, i, slots[i])
  }

  // ------------------------------------------------------------------ messages that agree on what is present

  predicate SameValue(fields: seq<Field>, i: nat, v: Value, w: Value)
    requires i < |fields|
    decreases fields, 0
  {
    if fields[i].ltype.SubmessageType? then v.Message? && w.Message? && Same(fields[i].sub, v.slots, w.slots)
    else v == w
  }

  predicate SameSlot(fields: seq<Field>, i: nat, s: Slot, t: Slot)
    requires i < |fields|
    decreases fields, 2
  {
    match fields[i].htype
    case Required => s.Single? && t.Single? && SameValue(fields, i, s.value, t.value)
    case Singular => s.Single? && t.Single? && SameValue(fields, i, s.value, t.value)
    case Optional => s.Flagged? && t.Flagged? && s.has == t.has && (s.has ==> SameValue(fields, i, s.value, t.value))
    case Repeated => SameItems(fields, i, s, t)
    case FixedCount => SameItems(fields, i, s, t)
    case Oneof(home) =>
      home != i ||
      (s.Union? && t.Union? && s.which == t.which &&
       (s.which != 0 ==> var m := IndexOf(fields, s.which, 0); m.Some? && SameValue(fields, m.value, s.value, t.value)))
  }

  predicate SameItems(fields: seq<Field>, i: nat, s: Slot, t: Slot)
    requires i < |fields|
    decreases fields, 1
  {
    s.Array? && t.Array? && |s.items| == |t.items| &&
    forall k | 0 <= k < |s.items| :: SameValue(fields, i, s.items[k], t.items[k])
  }

  /** Two messages are the same but for the values of fields that are absent. */
  predicate Same(fields: seq<Field>, slots: seq<Slot>, others: seq<Slot>)
    decreases fields, 3
  {
    |slots| == |others| == |fields| &&
    forall i {:trigger SameSlot(fields, i, slots[i], others[i])} | 0 <= i < |fields| ::
      SameSlot(fields, i, slots[i], others[i])
  }

  // ------------------------------------------------------------------ values come back

  lemma SignedFits(n: int, size: nat)
    requires IsIntSize(size) && FitsSigned(n, size)
    ensures Signed(n, size) == n
  {
    var m := Modulus(size);
    assert n % m == if n < 0 then n + m else n;
  }

  lemma LowBytes(n: int, size: nat)
    requires (size == 4 || size == 8) && FitsSigned(n, size)
    ensures Signed(Unsigned(n), size) == Signed(n, size)
  {
    assert Unsigned(n) == if n < 0 then n + TWO_64 else n;
    if size == 4 && n < 0 {
      assert (n + TWO_64) % TWO_32 == n + TWO_32;
    }
  }

  lemma SignedBack(n: int, size: nat)
    requires IsIntSize(size) && FitsSigned(n, size)
    ensures SignedField(size, Unsigned(n)) == Some(n)
  {
    var width := if size == 8 then 8 else 4;
    LowBytes(n, width);
    SignedFits(n, width);
    SignedFits(n, size);
  }

  lemma ZigZagBack(n: int, size: nat)
    requires IsIntSize(size) && FitsSigned(n, size)
    ensures ZigZagField(size, ZigZag(n)) == Some(n)
  {
    var z := if n < 0 then -2 * n - 1 else 2 * n;
    assert ZigZag(n) == z;
    assert UnZigZag(z) == n;
  }

  function Capacity(width: nat): nat {
    if width == 0 then 1 else 256 * Capacity(width - 1)
  }

  lemma Capacities(width: nat)
    requires width == 4 || width == 8
    ensures Capacity(width) == if width == 4 then TWO_32 else TWO_64
  {
    assert Capacity(4) == TWO_32;
    assert Capacity(8) == TWO_64;
  }

  lemma {:induction false} FixedBack(width: nat, n: nat)
    requires n < Capacity(width)
    ensures FromFixed(FixedBytes(width, n)) == n
    decreases width
  {
    if width > 0 {
      FixedBack(width - 1, n / 256);
      assert FixedBytes(width, n)[1..] == FixedBytes(width - 1, n / 256);
    }
  }

  lemma FixedGets(width: nat, n: nat, rest: Bytes)
    requires n < Capacity(width)
    ensures GetFixed(FixedBytes(width, n) + rest, width) == Some(Got(n as int, rest))
  {
    FixedBack(width, n);
    var b := FixedBytes(width, n);
    assert (b + rest)[..width] == b && (b + rest)[width..] == rest;
  }

  lemma FixedNumberBack(fields: seq<Field>, i: nat, n: int, rest: Bytes)
    requires i < |fields| && (fields[i].ltype.Fixed32Type? || fields[i].ltype.Fixed64Type?) && FitsNumber(fields[i], n)
    ensures EncodedValue(fields, i, Int(n)).Some?
    ensures GetNumber(fields[i], EncodedValue(fields, i, Int(n)).value + rest) == Some(Got(n, rest))
  {
    var width := if fields[i].ltype.Fixed32Type? then 4 else 8;
    Capacities(width);
    assert Unsigned(n) == n;
    FixedGets(width, n, rest);
  }

  lemma BoolBack(f: Field, n: nat, rest: Bytes)
    requires f.ltype.BoolType? && n <= 1
    ensures GetNumber(f, Varint(n) + rest) == Some(Got(n as int, rest))
  {
    Varint32Back(n, rest);
  }

  lemma VarintBack(f: Field, u: uint64, n: int, rest: Bytes)
    requires f.ltype.VarintType? || f.ltype.UVarintType? || f.ltype.SVarintType?
    requires FieldNumber(f, u) == Some(n)
    ensures GetNumber(f, Varint(u) + rest) == Some(Got(n, rest))
  {
    Gets64(u, rest);
  }

  /** What the encoder of an integer type writes, and that it is the right number again. */
  function Wire(f: Field, n: int): uint64 {
    if f.ltype.SVarintType? then ZigZag(n) else Unsigned(n)
  }

  lemma WireBack(f: Field, n: int)
    requires (f.ltype.VarintType? || f.ltype.UVarintType? || f.ltype.SVarintType?) && IsIntSize(f.dataSize)
    requires FitsNumber(f, n)
    ensures FieldNumber(f, Wire(f, n)) == Some(n)
  {
    if f.ltype.SVarintType? {
      ZigZagBack(n, f.dataSize);
    } else if f.ltype.VarintType? {
      SignedBack(n, f.dataSize);
    }
  }

  lemma NumberBack(fields: seq<Field>, i: nat, n: int, rest: Bytes)
    requires i < |fields| && FieldOk(fields, i) && Packable(fields[i].ltype) && FitsNumber(fields[i], n)
    ensures EncodedValue(fields, i, Int(n)).Some?
    ensures GetNumber(fields[i], EncodedValue(fields, i, Int(n)).value + rest) == Some(Got(n, rest))
  {
    var f := fields[i];
    if f.ltype.BoolType? {
      BoolBack(f, n, rest);
      assert (if n != 0 then 1 else 0) == n;
    } else if f.ltype.Fixed32Type? || f.ltype.Fixed64Type? {
      FixedNumberBack(fields, i, n, rest);
    } else {
      WireBack(f, n);
      VarintBack(f, Wire(f, n), n, rest);
    }
  }

  lemma {:induction false} CStringAll(b: Bytes, max: nat)
    requires |b| <= max && 0 !in b
    ensures CString(b, max) == b
  {
    if b != [] {
      assert b[0] in b;
      CStringAll(b[1..], max - 1);
    }
  }

  lemma StringGets(b: Bytes, rest: Bytes)
    requires |b| < TWO_32
    ensures GetString(Delimited(b) + rest) == Some(Got(b, rest))
    ensures DecodedVarint32(Delimited(b) + rest) == Some(Got(|b|, b + rest))
  {
    Regroup(Varint(|b|), b, rest);
    Varint32Back(|b|, b + rest);
  }

  lemma BlobBack(f: Field, b: Bytes, rest: Bytes)
    requires !Packable(f.ltype) && !f.ltype.SubmessageType? && FitsBlob(f, b) && |b| < TWO_32
    ensures GetBlob(f, Delimited(b) + rest) == Some(Got(b, rest))
  {
    StringGets(b, rest);
    if |b| == 0 {
      assert b == seq(0, _ => 0) && b + rest == rest;
    } else {
      assert (b + rest)[..|b|] == b && (b + rest)[|b|..] == rest;
    }
  }

  // ------------------------------------------------------------------ absent fields come back as defaults

  lemma {:induction false} ZeroSame(fields: seq<Field>, i: nat, v: Value)
    requires i < |fields| && FieldOk(fields, i) && fields[i].initial.None? && ValueOk(fields, i, v) &&
             IsZero(fields, i, v)
    ensures SameValue(fields, i, v, DefaultValue(fields, i))
    decreases fields, 0
  {
    var f := fields[i];
    if f.ltype.SubmessageType? {
      DefaultSame(f.sub, v.slots);
    } else if f.ltype.StringType? {
      CStringAll(v.bytes, f.dataSize);
    }
  }

  lemma {:induction false} DefaultSame(fields: seq<Field>, slots: seq<Slot>)
    requires WellFormed(fields) && MessageOk(fields, slots) && AllDefault(fields, slots, 0)
    ensures Same(fields, slots, Defaults(fields))
    decreases fields, 2
  {
    forall i {:trigger SameSlot(fields, i, slots[i], Defaults(fields)[i])} | 0 <= i < |fields|
      ensures SameSlot(fields, i, slots[i], Defaults(fields)[i])
    {
      AllDefaultAt(fields, slots, 0, i);
      assert SlotOk(fields, i, slots[i]) && FieldOk(fields, i);
      AbsentSame(fields, slots, i);
    }
  }

  lemma {:induction false} AllDefaultAt(fields: seq<Field>, slots: seq<Slot>, i: nat, k: nat)
    requires AllDefault(fields, slots, i) && i <= k < |fields|
    ensures IsDefault(fields, slots, k)
    decreases k - i
  {
    if i < k {
      AllDefaultAt(fields, slots, i + 1, k);
    }
  }

  lemma {:induction false} AbsentSame(fields: seq<Field>, slots: seq<Slot>, i: nat)
    requires |slots| == |fields| && i < |fields| && FieldOk(fields, i) && SlotOk(fields, i, slots[i]) &&
             IsDefault(fields, slots, i)
    ensures SameSlot(fields, i, slots[i], DefaultSlot(fields, i))
    decreases fields, 1
  {
    if fields[i].htype.Singular? {
      ZeroSame(fields, i, slots[i].value);
    }
  }

  // ------------------------------------------------------------------ how far the decoder has come

  /** The member of a oneof that its union holds. */
  function Selected(fields: seq<Field>, s: Slot): Option<nat> {
    if WhichIn(s) == 0 then None else IndexOf(fields, WhichIn(s), 0)
  }

  /** Slot `j` of the message being decoded, once the fields before `i` are, field `skip` not being there. */
  predicate SlotReached(fields: seq<Field>, slots: seq<Slot>, out: seq<Slot>, i: nat, j: nat, skip: nat)
    requires j < |fields| == |slots| == |out|
  {
    match fields[j].htype
    case Oneof(home) =>
      if home != j then out[j] == Shared
      else
        var m := Selected(fields, slots[j]);
        if m.Some? && m.value < i && m.value != skip then SameSlot(fields, j, slots[j], out[j])
        else out[j] == Union(0, Unset)
    case _ => if j < i then j == skip || SameSlot(fields, j, slots[j], out[j]) else out[j] == DefaultSlot(fields, j)
  }

  predicate Reached(fields: seq<Field>, slots: seq<Slot>, out: seq<Slot>, i: nat, skip: nat) {
    |fields| == |slots| == |out| &&
    forall j {:trigger SlotReached(fields, slots, out, i, j, skip)} | 0 <= j < |fields| ::
      SlotReached(fields, slots, out, i, j, skip)
  }

  lemma DefaultsReached(fields: seq<Field>, slots: seq<Slot>, skip: nat)
    requires |fields| == |slots|
    ensures Reached(fields, slots, Defaults(fields), 0, skip)
  {
    forall j {:trigger SlotReached(fields, slots, Defaults(fields), 0, j, skip)} | 0 <= j < |fields|
      ensures SlotReached(fields, slots, Defaults(fields), 0, j, skip)
    {
      assert Defaults(fields)[j] == DefaultSlot(fields, j);
    }
  }

  lemma UnionIsOk(fields: seq<Field>, slots: seq<Slot>, j: nat)
    requires MessageOk(fields, slots) && j < |fields|
    ensures fields[j].htype == Oneof(j) ==>
              UnionOk(fields, j, slots[j]) && slots[j].Union? && WhichIn(slots[j]) == slots[j].which
  {
    assert SlotOk(fields, j, slots[j]);
    if fields[j].htype == Oneof(j) {
      assert UnionOk(fields, j, slots[j]);
    }
  }

  /** All fields reached: the messages are the same. */
  lemma ReachedSame(fields: seq<Field>, slots: seq<Slot>, out: seq<Slot>)
    requires WellFormed(fields) && MessageOk(fields, slots) && Reached(fields, slots, out, |fields|, |fields|)
    ensures Same(fields, slots, out)
  {
    forall i {:trigger SameSlot(fields, i, slots[i], out[i])} | 0 <= i < |fields|
      ensures SameSlot(fields, i, slots[i], out[i])
    {
      assert SlotReached(fields, slots, out, |fields|, i, |fields|) && FieldOk(fields, i);
      UnionIsOk(fields, slots, i);
    }
  }

  /** A field that is not written leaves everything as it is. */
  lemma AbsentReached(fields: seq<Field>, slots: seq<Slot>, out: seq<Slot>, i: nat, skip: nat)
    requires WellFormed(fields) && MessageOk(fields, slots) && Reached(fields, slots, out, i, skip) && i < |fields|
    requires i == skip ||
             if fields[i].htype.Oneof? then WhichIn(SlotAt(slots, fields[i].htype.home)) != fields[i].tag
             else SameSlot(fields, i, slots[i], DefaultSlot(fields, i))
    ensures Reached(fields, slots, out, i + 1, skip)
  {
    forall j {:trigger SlotReached(fields, slots, out, i + 1, j, skip)} | 0 <= j < |fields|
      ensures SlotReached(fields, slots, out, i + 1, j, skip)
    {
      assert SlotReached(fields, slots, out, i, j, skip) && FieldOk(fields, i);
      UnionIsOk(fields, slots, j);
    }
  }

  /** A field that is written is the same afterwards. */
  lemma PresentReached(fields: seq<Field>, slots: seq<Slot>, out: seq<Slot>, i: nat, s: Slot, skip: nat)
    requires WellFormed(fields) && MessageOk(fields, slots) && Reached(fields, slots, out, i, skip) && i < |fields|
    requires !fields[i].htype.Oneof? && (i == skip || SameSlot(fields, i, slots[i], s))
    ensures Reached(fields, slots, out[i := s], i + 1, skip)
  {
    var next := out[i := s];
    forall j {:trigger SlotReached(fields, slots, next, i + 1, j, skip)} | 0 <= j < |fields|
      ensures SlotReached(fields, slots, next, i + 1, j, skip)
    {
      assert SlotReached(fields, slots, out, i, j, skip);
      UnionIsOk(fields, slots, j);
    }
  }

  lemma MemberReached(fields: seq<Field>, slots: seq<Slot>, out: seq<Slot>, i: nat, w: Value, skip: nat)
    requires WellFormed(fields) && MessageOk(fields, slots) && Reached(fields, slots, out, i, skip) && i < |fields|
    requires fields[i].htype.Oneof? && FieldOk(fields, i) && i != skip
    requires var u := slots[fields[i].htype.home];
      u.Union? && u.which == fields[i].tag && SameValue(fields, i, u.value, w)
    ensures Reached(fields, slots, out[fields[i].htype.home := Union(fields[i].tag, w)], i + 1, skip)
  {
    var home := fields[i].htype.home;
    var next := out[home := Union(fields[i].tag, w)];
    IndexIs(fields, i, 0);
    forall j {:trigger SlotReached(fields, slots, next, i + 1, j, skip)} | 0 <= j < |fields|
      ensures SlotReached(fields, slots, next, i + 1, j, skip)
    {
      assert SlotReached(fields, slots, out, i, j, skip);
      UnionIsOk(fields, slots, j);
    }
  }

  // ------------------------------------------------------------------ fields come back

  /** A tag leads the decoder to its field. */
  lemma TagBack(fields: seq<Field>, i: nat, wireType: nat, st: State, b: Bytes)
    requires WellFormed(fields) && i < |fields| && wireType < 8 && StoreNext(fields, i, wireType, st, b).Some?
    ensures var g := StoreNext(fields, i, wireType, st, b).value;
      DecodedFrom(fields, st, TagBytes(wireType, fields[i].tag) + b) == DecodedFrom(fields, g.value, g.rest)
  {
    var t := fields[i].tag * 8 + wireType;
    assert FieldOk(fields, i);
    Varint32Back(t, b);
    IndexIs(fields, i, 0);
    assert t / 8 == fields[i].tag && t % 8 == wireType;
    assert TagBytes(wireType, fields[i].tag) + b != [];
  }

  /** The array without a count that the decoder was filling is complete, and comes before field `i`. */
  ghost predicate Settled(fields: seq<Field>, st: State, i: nat) {
    FixedDone(fields, st) && (st.fixedField.Some? ==> st.fixedField.value < i)
  }

  /** Field `i` is no array without a count, or the one before it is complete. */
  ghost predicate Ready(fields: seq<Field>, slots: seq<Slot>, i: nat, st: State)
    requires i < |fields|
  {
    fields[i].htype.FixedCount? && ItemsIn(SlotAt(slots, i)) != [] ==> Settled(fields, st, i)
  }

  /** Reading field `i` changes nothing about arrays without a count, or fills field `i`, which is one. */
  ghost predicate Fixing(fields: seq<Field>, slots: seq<Slot>, i: nat, st: State, next: State)
    requires i < |fields|
  {
    if fields[i].htype.FixedCount? && ItemsIn(SlotAt(slots, i)) != [] then
      next.fixedField == Some(i) && next.fixedCount == fields[i].arraySize
    else
      next.fixedField == st.fixedField && next.fixedCount == st.fixedCount
  }

  /** Rank `r` is that of field `skip`. */
  predicate RankOf(fields: seq<Field>, skip: nat, r: nat) {
    skip < |fields| && fields[skip].htype.Required? && r == RequiredBefore(fields, skip)
  }

  /** The decoder has seen the required fields before `i`, except field `skip`. */
  ghost predicate SeenBefore(fields: seq<Field>, st: State, i: nat, skip: nat)
    requires i <= |fields|
  {
    forall r: nat ::
      r in st.seen <==> r < RequiredBefore(fields, i) && r < MAX_REQUIRED_FIELDS && !RankOf(fields, skip, r)
  }

  lemma {:induction false} RanksGrow(fields: seq<Field>, i: nat, k: nat)
    requires i <= k <= |fields|
    ensures RequiredBefore(fields, i) <= RequiredBefore(fields, k)
    ensures i < k && fields[i].htype.Required? ==> RequiredBefore(fields, i) < RequiredBefore(fields, k)
    decreases k
  {
    if i < k {
      RanksGrow(fields, i, k - 1);
    }
  }

  lemma SeenMore(fields: seq<Field>, st: State, i: nat, skip: nat)
    requires i < |fields| && SeenBefore(fields, st, i, skip) && i != skip
    ensures SeenBefore(fields, Seeing(fields, i, st), i + 1, skip)
  {
    if skip < i {
      RanksGrow(fields, skip, i);
    } else if skip < |fields| {
      RanksGrow(fields, i, skip);
    }
  }

  lemma SkippedUnseen(fields: seq<Field>, st: State, skip: nat)
    requires skip < |fields| && SeenBefore(fields, st, skip, skip)
    ensures SeenBefore(fields, st, skip + 1, skip)
  {
  }

  /** The value of a field that is no array comes back. */
  lemma SingleBack(fields: seq<Field>, i: nat, st: State, v: Value, w: Value, rest: Bytes)
    requires WellFormed(fields) && i < |fields| && !fields[i].htype.Repeated? && !fields[i].htype.FixedCount?
    requires EncodedValue(fields, i, v).Some?
    requires GetValue(fields, i, Before(fields, i, st.slots), EncodedValue(fields, i, v).value + rest) ==
             Some(Got(w, rest))
    ensures TaggedValue(fields, i, v).Some?
    ensures var next := Seeing(fields, i, st).(slots := WithValue(fields[i], i, st.slots, w));
      DecodedFrom(fields, st, TaggedValue(fields, i, v).value + rest) == DecodedFrom(fields, next, rest)
  {
    var b := EncodedValue(fields, i, v).value;
    Regroup(FieldTag(fields[i]), b, rest);
    TagBack(fields, i, WireType(fields[i].ltype), st, b + rest);
  }

  /** The state while an array is read one entry at a time. */
  ghost predicate Filling(fields: seq<Field>, i: nat, st: State, sofar: seq<Value>)
    requires i < |fields| && (fields[i].htype.Repeated? || fields[i].htype.FixedCount?)
  {
    i < |st.slots| && st.slots[i] == Array(sofar) &&
    (fields[i].htype.FixedCount? ==>
       if st.fixedField == Some(i) then st.fixedCount == |sofar| else sofar == [] && FixedDone(fields, st))
  }

  /** The state once an array is read. */
  function Filled(fields: seq<Field>, i: nat, st: State, items: seq<Value>): State
    requires i < |fields| == |st.slots|
  {
    var next := st.(slots := st.slots[i := Array(items)]);
    if fields[i].htype.FixedCount? then next.(fixedField := Some(i), fixedCount := |items|) else next
  }

  lemma {:induction false} PackedItemsBack(fields: seq<Field>, i: nat, items: seq<Value>, sofar: seq<Value>)
    requires i < |fields| && FieldOk(fields, i) && Packable(fields[i].ltype) && ItemsOk(fields, i, items)
    requires |sofar| + |items| <= fields[i].arraySize
    ensures EncodedItems(fields, i, items).Some?
    ensures GetItems(fields[i], sofar, EncodedItems(fields, i, items).value) == Some(sofar + items)
    decreases items
  {
    hide EncodedValue, GetNumber;
    if items == [] {
      assert sofar + items == sofar;
    } else {
      var v := items[0];
      assert v in items && forall x | x in items[1..] :: x in items;
      PackedItemsBack(fields, i, items[1..], sofar + [v]);
      var more := EncodedItems(fields, i, items[1..]).value;
      NumberBack(fields, i, v.n, more);
      assert sofar + [v] + items[1..] == sofar + items;
    }
  }

  /** What counting does before the first entry of an array, or a later one. */
  function Counted(fields: seq<Field>, i: nat, st: State, n: nat): State
    requires i < |fields|
  {
    if fields[i].htype.FixedCount? then st.(fixedField := Some(i), fixedCount := n) else st
  }

  lemma CountingFills(fields: seq<Field>, i: nat, st: State, sofar: seq<Value>)
    requires i < |fields| && (fields[i].htype.Repeated? || fields[i].htype.FixedCount?) && Filling(fields, i, st, sofar)
    ensures Counting(fields, i, st) == Some(Counted(fields, i, st, |sofar|))
    ensures Seeing(fields, i, st) == st
  {
  }

  /** Storing what is read makes the array longer. */
  lemma Stores(fields: seq<Field>, i: nat, wireType: nat, st: State, sofar: seq<Value>, all: seq<Value>, b: Bytes,
               rest: Bytes)
    requires i < |fields| == |st.slots| && (fields[i].htype.Repeated? || fields[i].htype.FixedCount?)
    requires Filling(fields, i, st, sofar)
    requires StoreItems(fields, i, wireType, st.slots, Counted(fields, i, st, |sofar|).fixedCount, b) ==
             Some(Got(Stored(st.slots[i := Array(all)], |all|), rest))
    ensures StoreNext(fields, i, wireType, st, b) == Some(Got(Filled(fields, i, st, all), rest))
  {
    CountingFills(fields, i, st, sofar);
    var s := Counted(fields, i, st, |sofar|);
    assert StoreField(fields, i, wireType, s.slots, s.fixedCount, b) ==
           StoreItems(fields, i, wireType, s.slots, s.fixedCount, b);
  }

  lemma PackedStores(fields: seq<Field>, i: nat, slots: seq<Slot>, count: nat, items: seq<Value>, b: Bytes, rest: Bytes)
    requires i < |fields| == |slots| && Packable(fields[i].ltype) && (fields[i].htype.FixedCount? ==> count == 0)
    requires slots[i] == Array([]) && |b| < TWO_32 && GetItems(fields[i], [], b) == Some(items)
    ensures StoreItems(fields, i, WT_STRING, slots, count, Delimited(b) + rest) ==
            Some(Got(Stored(slots[i := Array(items)], |items|), rest))
  {
    StringGets(b, rest);
    assert ItemsIn(slots[i])[..0] == [];
  }

  lemma EntryStores(fields: seq<Field>, i: nat, wireType: nat, slots: seq<Slot>, count: nat, sofar: seq<Value>,
                    w: Value, b: Bytes, rest: Bytes)
    requires i < |fields| == |slots| && !Packable(fields[i].ltype) && (fields[i].htype.FixedCount? ==> count == |sofar|)
    requires slots[i] == Array(sofar) && |sofar| < fields[i].arraySize &&
             GetValue(fields, i, Unset, b) == Some(Got(w, rest))
    ensures StoreItems(fields, i, wireType, slots, count, b) ==
            Some(Got(Stored(slots[i := Array(sofar + [w])], |sofar + [w]|), rest))
  {
    assert sofar[..|sofar|] == sofar;
  }

  /** A packed array comes back. */
  lemma PackedBack(fields: seq<Field>, i: nat, st: State, items: seq<Value>, rest: Bytes)
    requires WellFormed(fields) && i < |fields| == |st.slots| && Packable(fields[i].ltype) && items != []
    requires (fields[i].htype.Repeated? || fields[i].htype.FixedCount?) && Filling(fields, i, st, []) &&
             (fields[i].htype.FixedCount? ==> st.fixedField != Some(i))
    requires |items| <= fields[i].arraySize && ItemsOk(fields, i, items)
    requires EncodedArray(fields, i, items).Some? && |EncodedArray(fields, i, items).value| < TWO_32
    ensures DecodedFrom(fields, st, EncodedArray(fields, i, items).value + rest) ==
            DecodedFrom(fields, Filled(fields, i, st, items), rest)
  {
    assert FieldOk(fields, i);
    PackedItemsBack(fields, i, items, []);
    assert [] + items == items;
    var body := EncodedItems(fields, i, items).value;
    var b := Delimited(body) + rest;
    PackedStores(fields, i, st.slots, Counted(fields, i, st, 0).fixedCount, items, body, rest);
    Stores(fields, i, WT_STRING, st, [], items, b, rest);
    Regroup(TagBytes(WT_STRING, fields[i].tag), Delimited(body), rest);
    TagBack(fields, i, WT_STRING, st, b);
  }

  lemma {:induction false} ValueBack(fields: seq<Field>, i: nat, v: Value, before: Value, rest: Bytes)
    returns (w: Value)
    requires WellFormed(fields) && i < |fields| && ValueOk(fields, i, v)
    requires EncodedValue(fields, i, v).Some? && |EncodedValue(fields, i, v).value| < TWO_32
    requires var f := fields[i];
      f.ltype.SubmessageType? && !f.htype.Repeated? && !f.htype.FixedCount? ==> SlotsOf(before) == Defaults(f.sub)
    ensures GetValue(fields, i, before, EncodedValue(fields, i, v).value + rest) == Some(Got(w, rest))
    ensures SameValue(fields, i, v, w)
    decreases fields, 0
  {
    var f := fields[i];
    assert FieldOk(fields, i);
    if Packable(f.ltype) {
      NumberBack(fields, i, v.n, rest);
      w := v;
    } else if f.ltype.SubmessageType? {
      var body := EncodedFrom(f.sub, v.slots, 0).value;
      StringGets(body, rest);
      var out := MessageBack(f.sub, v.slots);
      w := Message(out);
    } else {
      if f.ltype.StringType? {
        CStringAll(v.bytes, f.dataSize);
      }
      BlobBack(f, v.bytes, rest);
      w := v;
    }
  }

  /** Entries written one at a time come back one at a time. */
  lemma {:induction false} ItemsBack(fields: seq<Field>, i: nat, st: State, sofar: seq<Value>, items: seq<Value>,
                                     rest: Bytes)
    returns (more: seq<Value>)
    requires WellFormed(fields) && i < |fields| == |st.slots| && !Packable(fields[i].ltype)
    requires (fields[i].htype.Repeated? || fields[i].htype.FixedCount?) && Filling(fields, i, st, sofar)
    requires |sofar| + |items| <= fields[i].arraySize && ItemsOk(fields, i, items)
    requires TaggedItems(fields, i, items).Some? && |TaggedItems(fields, i, items).value| < TWO_32
    ensures |more| == |items| && forall k | 0 <= k < |items| :: SameValue(fields, i, items[k], more[k])
    ensures DecodedFrom(fields, st, TaggedItems(fields, i, items).value + rest) ==
            DecodedFrom(fields, if items == [] then st else Filled(fields, i, st, sofar + more), rest)
    decreases fields, 1, items, 0
  {
    if items == [] {
      more := [];
      assert [] + rest == rest;
    } else {
      assert items[0] in items && forall x | x in items[1..] :: x in items;
      JoinParts(fields, i, items);
      var later := TaggedItems(fields, i, items[1..]).value;
      var w := ValueBack(fields, i, items[0], Unset, later + rest);
      EntryBack(fields, i, st, sofar, items[0], w, later + rest);
      Regroup(TaggedValue(fields, i, items[0]).value, later, rest);
      var tail := ItemsBack(fields, i, Filled(fields, i, st, sofar + [w]), sofar + [w], items[1..], rest);
      more := [w] + tail;
      FilledOn(fields, i, st, sofar, w, tail);
    }
  }

  /** Going on after one more entry. */
  lemma FilledOn(fields: seq<Field>, i: nat, st: State, sofar: seq<Value>, w: Value, tail: seq<Value>)
    requires i < |fields| == |st.slots|
    ensures var next := Filled(fields, i, st, sofar + [w]);
      (if tail == [] then next else Filled(fields, i, next, sofar + [w] + tail)) ==
      Filled(fields, i, st, sofar + ([w] + tail))
  {
    assert sofar + [w] + tail == sofar + ([w] + tail);
    assert tail == [] ==> [w] + tail == [w];
    assert st.slots[i := Array(sofar + [w])][i := Array(sofar + [w] + tail)] ==
           st.slots[i := Array(sofar + [w] + tail)];
  }

  lemma JoinParts(fields: seq<Field>, i: nat, items: seq<Value>)
    requires i < |fields| && items != [] && TaggedItems(fields, i, items).Some?
    ensures TaggedValue(fields, i, items[0]).Some? && TaggedItems(fields, i, items[1..]).Some?
    ensures TaggedItems(fields, i, items).value ==
            TaggedValue(fields, i, items[0]).value + TaggedItems(fields, i, items[1..]).value
  {
  }

  lemma EntryBack(fields: seq<Field>, i: nat, st: State, sofar: seq<Value>, v: Value, w: Value, rest: Bytes)
    requires WellFormed(fields) && i < |fields| == |st.slots| && !Packable(fields[i].ltype)
    requires (fields[i].htype.Repeated? || fields[i].htype.FixedCount?) && Filling(fields, i, st, sofar)
    requires |sofar| < fields[i].arraySize && EncodedValue(fields, i, v).Some?
    requires GetValue(fields, i, Unset, EncodedValue(fields, i, v).value + rest) == Some(Got(w, rest))
    ensures DecodedFrom(fields, st, TaggedValue(fields, i, v).value + rest) ==
            DecodedFrom(fields, Filled(fields, i, st, sofar + [w]), rest)
  {
    var b, wireType := EncodedValue(fields, i, v).value, WireType(fields[i].ltype);
    EntryStores(fields, i, wireType, st.slots, Counted(fields, i, st, |sofar|).fixedCount, sofar, w, b + rest, rest);
    Stores(fields, i, wireType, st, sofar, sofar + [w], b + rest, rest);
    Regroup(FieldTag(fields[i]), b, rest);
    TagBack(fields, i, wireType, st, b + rest);
  }

  /** A whole array comes back, packed or not. */
  lemma {:induction false} ItemsFill(fields: seq<Field>, i: nat, st: State, items: seq<Value>, rest: Bytes)
    returns (more: seq<Value>)
    requires WellFormed(fields) && i < |fields| == |st.slots| && items != []
    requires (fields[i].htype.Repeated? || fields[i].htype.FixedCount?) && Filling(fields, i, st, []) &&
             (fields[i].htype.FixedCount? ==> st.fixedField != Some(i))
    requires |items| <= fields[i].arraySize && ItemsOk(fields, i, items)
    requires EncodedArray(fields, i, items).Some? && |EncodedArray(fields, i, items).value| < TWO_32
    ensures SameItems(fields, i, Array(items), Array(more))
    ensures DecodedFrom(fields, st, EncodedArray(fields, i, items).value + rest) ==
            DecodedFrom(fields, Filled(fields, i, st, more), rest)
    decreases fields, 1, items, 1
  {
    hide Filling, DecodedFrom;
    if Packable(fields[i].ltype) {
      more := items;
      PackedBack(fields, i, st, items, rest);
    } else {
      more := ItemsBack(fields, i, st, [], items, rest);
      assert [] + more == more;
    }
  }

  /** A message comes back. */
  lemma {:induction false} MessageBack(fields: seq<Field>, slots: seq<Slot>) returns (out: seq<Slot>)
    requires WellFormed(fields) && MessageOk(fields, slots)
    requires EncodedFrom(fields, slots, 0).Some? && |EncodedFrom(fields, slots, 0).value| < TWO_32
    ensures DecodedInto(fields, Defaults(fields), EncodedFrom(fields, slots, 0).value) == Some(Got(out, []))
    ensures Same(fields, slots, out)
    decreases fields, 5
  {
    DefaultsReached(fields, slots, |fields|);
    var last := FromBack(fields, slots, 0, Start(Defaults(fields)), |fields|);
    out := last.slots;
    ReachedSame(fields, slots, out);
  }

  lemma FromParts(fields: seq<Field>, slots: seq<Slot>, i: nat)
    requires i < |fields| && EncodedFrom(fields, slots, i).Some?
    ensures EncodedField(fields, slots, i).Some? && EncodedFrom(fields, slots, i + 1).Some?
    ensures EncodedFrom(fields, slots, i).value ==
            EncodedField(fields, slots, i).value + EncodedFrom(fields, slots, i + 1).value
  {
  }

  lemma {:induction false} FromBack(fields: seq<Field>, slots: seq<Slot>, i: nat, st: State, skip: nat)
    returns (last: State)
    requires WellFormed(fields) && MessageOk(fields, slots) && i <= |fields| && (skip < i || skip >= |fields|)
    requires EncodedFrom(fields, slots, i).Some? && |EncodedFrom(fields, slots, i).value| < TWO_32
    requires Reached(fields, slots, st.slots, i, skip) && Settled(fields, st, i) && SeenBefore(fields, st, i, skip)
    ensures DecodedFrom(fields, st, EncodedFrom(fields, slots, i).value) == Some(Got(last, []))
    ensures Reached(fields, slots, last.slots, |fields|, skip) && Settled(fields, last, |fields|)
    ensures SeenBefore(fields, last, |fields|, skip)
    decreases fields, 4, |fields| - i
  {
    if i == |fields| {
      last := st;
    } else {
      FromParts(fields, slots, i);
      var rest := EncodedFrom(fields, slots, i + 1).value;
      var next := FieldBack(fields, slots, i, st, rest, skip);
      last := FromBack(fields, slots, i + 1, next, skip);
    }
  }

  lemma {:induction false} FieldBack(fields: seq<Field>, slots: seq<Slot>, i: nat, st: State, rest: Bytes,
                                       skip: nat)
    returns (next: State)
    requires WellFormed(fields) && MessageOk(fields, slots) && i < |fields|
    requires EncodedField(fields, slots, i).Some? && |EncodedField(fields, slots, i).value| < TWO_32
    requires Reached(fields, slots, st.slots, i, skip) && SeenBefore(fields, st, i, skip) && i != skip
    requires Ready(fields, slots, i, st)
    ensures DecodedFrom(fields, st, EncodedField(fields, slots, i).value + rest) == DecodedFrom(fields, next, rest)
    ensures Reached(fields, slots, next.slots, i + 1, skip) && SeenBefore(fields, next, i + 1, skip)
    ensures Fixing(fields, slots, i, st, next)
    decreases fields, 3
  {
    var f := fields[i];
    assert SlotReached(fields, slots, st.slots, i, i, skip) && SlotOk(fields, i, slots[i]) && FieldOk(fields, i);
    if f.htype.Repeated? || f.htype.FixedCount? {
      next := ArrayBack(fields, slots, i, st, rest, skip);
    } else if f.htype.Oneof? && WhichIn(SlotAt(slots, f.htype.home)) == f.tag {
      next := MemberBack(fields, slots, i, st, rest, skip);
    } else if Present(fields, slots, i) {
      next := PlainBack(fields, slots, i, st, rest, skip);
    } else {
      next := st;
      assert [] + rest == rest;
      if !f.htype.Oneof? {
        AbsentSame(fields, slots, i);
      }
      AbsentReached(fields, slots, st.slots, i, skip);
    }
  }

  /** A field outside arrays and oneofs is written. */
  predicate Present(fields: seq<Field>, slots: seq<Slot>, i: nat)
    requires i < |fields|
  {
    fields[i].htype.Required? || (fields[i].htype.Optional? && HasIn(SlotAt(slots, i))) ||
    (fields[i].htype.Singular? && !IsZero(fields, i, ValueIn(SlotAt(slots, i))))
  }

  lemma DefaultIn(fields: seq<Field>, i: nat)
    requires i < |fields| && (fields[i].htype.Required? || fields[i].htype.Singular? || fields[i].htype.Optional?)
    ensures ValueIn(DefaultSlot(fields, i)) == DefaultValue(fields, i)
    ensures fields[i].ltype.SubmessageType? ==> SlotsOf(DefaultValue(fields, i)) == Defaults(fields[i].sub)
  {
  }

  lemma {:induction false} PlainBack(fields: seq<Field>, slots: seq<Slot>, i: nat, st: State, rest: Bytes,
                                       skip: nat)
    returns (next: State)
    requires WellFormed(fields) && MessageOk(fields, slots) && i < |fields| && Present(fields, slots, i)
    requires EncodedField(fields, slots, i).Some? && |EncodedField(fields, slots, i).value| < TWO_32
    requires Reached(fields, slots, st.slots, i, skip) && SeenBefore(fields, st, i, skip) && i != skip
    requires Ready(fields, slots, i, st)
    ensures DecodedFrom(fields, st, EncodedField(fields, slots, i).value + rest) == DecodedFrom(fields, next, rest)
    ensures Reached(fields, slots, next.slots, i + 1, skip) && SeenBefore(fields, next, i + 1, skip)
    ensures Fixing(fields, slots, i, st, next)
    decreases fields, 2
  {
    var f, v := fields[i], ValueIn(slots[i]);
    assert SlotReached(fields, slots, st.slots, i, i, skip) && SlotOk(fields, i, slots[i]) && FieldOk(fields, i);
    assert st.slots[i] == DefaultSlot(fields, i);
    DefaultIn(fields, i);
    var w := ValueBack(fields, i, v, Before(fields, i, st.slots), rest);
    SingleBack(fields, i, st, v, w, rest);
    var s := if f.htype.Optional? then Flagged(true, w) else Single(w);
    next := Seeing(fields, i, st).(slots := st.slots[i := s]);
    assert SameSlot(fields, i, slots[i], s);
    PresentReached(fields, slots, st.slots, i, s, skip);
    SeenMore(fields, st, i, skip);
  }

  lemma {:induction false} MemberBack(fields: seq<Field>, slots: seq<Slot>, i: nat, st: State, rest: Bytes,
                                       skip: nat)
    returns (next: State)
    requires WellFormed(fields) && MessageOk(fields, slots) && i < |fields| && fields[i].htype.Oneof? &&
             FieldOk(fields, i)
    requires WhichIn(SlotAt(slots, fields[i].htype.home)) == fields[i].tag
    requires EncodedField(fields, slots, i).Some? && |EncodedField(fields, slots, i).value| < TWO_32
    requires Reached(fields, slots, st.slots, i, skip) && SeenBefore(fields, st, i, skip) && i != skip
    requires Ready(fields, slots, i, st)
    ensures DecodedFrom(fields, st, EncodedField(fields, slots, i).value + rest) == DecodedFrom(fields, next, rest)
    ensures Reached(fields, slots, next.slots, i + 1, skip) && SeenBefore(fields, next, i + 1, skip)
    ensures Fixing(fields, slots, i, st, next)
    decreases fields, 2
  {
    var f, home := fields[i], fields[i].htype.home;
    UnionIsOk(fields, slots, home);
    IndexIs(fields, i, 0);
    assert SlotReached(fields, slots, st.slots, i, home, skip);
    assert st.slots[home] == Union(0, Unset);
    var v := ValueIn(slots[home]);
    var w := ValueBack(fields, i, v, Before(fields, i, st.slots), rest);
    SingleBack(fields, i, st, v, w, rest);
    next := st.(slots := st.slots[home := Union(f.tag, w)]);
    MemberReached(fields, slots, st.slots, i, w, skip);
    SeenMore(fields, st, i, skip);
  }

  lemma {:induction false} ArrayBack(fields: seq<Field>, slots: seq<Slot>, i: nat, st: State, rest: Bytes,
                                       skip: nat)
    returns (next: State)
    requires WellFormed(fields) && MessageOk(fields, slots) && i < |fields|
    requires fields[i].htype.Repeated? || fields[i].htype.FixedCount?
    requires EncodedField(fields, slots, i).Some? && |EncodedField(fields, slots, i).value| < TWO_32
    requires Reached(fields, slots, st.slots, i, skip) && SeenBefore(fields, st, i, skip) && i != skip
    requires Ready(fields, slots, i, st)
    ensures DecodedFrom(fields, st, EncodedField(fields, slots, i).value + rest) == DecodedFrom(fields, next, rest)
    ensures Reached(fields, slots, next.slots, i + 1, skip) && SeenBefore(fields, next, i + 1, skip)
    ensures Fixing(fields, slots, i, st, next)
    decreases fields, 2
  {
    var f, items := fields[i], ItemsIn(slots[i]);
    assert SlotReached(fields, slots, st.slots, i, i, skip) && SlotOk(fields, i, slots[i]) && FieldOk(fields, i);
    SeenMore(fields, st, i, skip);
    if items == [] {
      next := st;
      assert [] + rest == rest;
      AbsentReached(fields, slots, st.slots, i, skip);
    } else {
      var more := ItemsFill(fields, i, st, items, rest);
      next := Filled(fields, i, st, more);
      PresentReached(fields, slots, st.slots, i, Array(more), skip);
    }
  }

  // ------------------------------------------------------------------ a message within its limits encodes

  lemma {:induction false} Encodes(fields: seq<Field>, slots: seq<Slot>, i: nat)
    requires WellFormed(fields) && MessageOk(fields, slots) && i <= |fields|
    ensures EncodedFrom(fields, slots, i).Some?
    decreases fields, 3, |fields| - i
  {
    if i < |fields| {
      assert SlotOk(fields, i, slots[i]) && FieldOk(fields, i);
      FieldEncodes(fields, slots, i);
      Encodes(fields, slots, i + 1);
    }
  }

  lemma {:induction false} FieldEncodes(fields: seq<Field>, slots: seq<Slot>, i: nat)
    requires WellFormed(fields) && MessageOk(fields, slots) && i < |fields|
    requires FieldOk(fields, i) && SlotOk(fields, i, slots[i])
    ensures EncodedField(fields, slots, i).Some?
    decreases fields, 2
  {
    var f := fields[i];
    if f.htype.Repeated? || f.htype.FixedCount? {
      ItemsEncode(fields, i, slots[i].items);
    } else if f.htype.Oneof? {
      if WhichIn(slots[f.htype.home]) == f.tag {
        UnionIsOk(fields, slots, f.htype.home);
        IndexIs(fields, i, 0);
        ValueEncodes(fields, i, slots[f.htype.home].value);
      }
    } else if Present(fields, slots, i) {
      ValueEncodes(fields, i, ValueIn(slots[i]));
    }
  }

  lemma {:induction false} ItemsEncode(fields: seq<Field>, i: nat, items: seq<Value>)
    requires WellFormed(fields) && i < |fields| && ItemsOk(fields, i, items)
    ensures EncodedItems(fields, i, items).Some? && TaggedItems(fields, i, items).Some?
    decreases fields, 1, items
  {
    if items != [] {
      assert items[0] in items && forall x | x in items[1..] :: x in items;
      ValueEncodes(fields, i, items[0]);
      ItemsEncode(fields, i, items[1..]);
    }
  }

  lemma {:induction false} ValueEncodes(fields: seq<Field>, i: nat, v: Value)
    requires WellFormed(fields) && i < |fields| && ValueOk(fields, i, v)
    ensures EncodedValue(fields, i, v).Some?
    decreases fields, 0
  {
    assert FieldOk(fields, i);
    if fields[i].ltype.SubmessageType? {
      Encodes(fields[i].sub, v.slots, 0);
    }
  }

  /** Every message within the limits of its descriptor encodes, and if that takes less than 4 GB it decodes to the
      same message, but for the values of absent fields. */
  lemma RoundTrip(fields: seq<Field>, slots: seq<Slot>)
    requires WellFormed(fields) && MessageOk(fields, slots)
    ensures EncodedFrom(fields, slots, 0).Some?
    ensures var e := EncodedFrom(fields, slots, 0).value;
      |e| < TWO_32 ==>
        Decoded(fields, e).Some? && Decoded(fields, e).value.rest == [] &&
        Same(fields, slots, Decoded(fields, e).value.value)
  {
    Encodes(fields, slots, 0);
    if |EncodedFrom(fields, slots, 0).value| < TWO_32 {
      var out := MessageBack(fields, slots);
    }
  }

  lemma {:induction false} WellFormedDescriptor(fields: seq<Field>)
    requires WellFormed(fields)
    ensures Descriptor(fields)
    decreases fields
  {
    forall f | f in fields
      ensures f.tag > 0 && (f.ltype.SubmessageType? ==> Descriptor(f.sub))
    {
      var i :| 0 <= i < |fields| && fields[i] == f;
      assert FieldOk(fields, i);
      if f.ltype.SubmessageType? {
        WellFormedDescriptor(f.sub);
      }
    }
  }

  /** pb_encode into a buffer and pb_decode from it. A buffer of the encoded size or more, below 4 GB, is enough to get
      the message back; a smaller one fails. */
  method EncodeAndDecode(fields: seq<Field>, slots: seq<Slot>, bufferSize: nat) returns (out: Option<seq<Slot>>)
    requires WellFormed(fields) && MessageOk(fields, slots)
    ensures EncodedFrom(fields, slots, 0).Some?
    ensures var size := |EncodedFrom(fields, slots, 0).value|;
      size < TWO_32 ==> (out.Some? <==> size <= bufferSize) && (out.Some? ==> Same(fields, slots, out.value))
  {
    Encodes(fields, slots, 0);
    var written := EncodeToBuffer(fields, slots, bufferSize);
    if written.None? {
      return None;
    }
    WellFormedDescriptor(fields);
    RoundTrip(fields, slots);
    var stream := new IStream.FromBuffer(written.value);
    out := Decode(stream, fields);
  }
}
