// What the nanopb decoder makes of any bytes: values within the limits of the descriptor, and nothing of fields it does
// not know (nanopb/pb_decode.c).

module NanopbLimits {
  import opened Keys
  import opened Coding
  import opened Varints
  import opened NanopbFields
  import opened NanopbEncode
  import opened NanopbDecode
  import opened NanopbRoundTrip

  // ------------------------------------------------------------------ limits

  predicate BlobInRoom(f: Field, b: Bytes) {
    match f.ltype
    case BytesType => |b| + BYTES_OFFSET <= f.dataSize
    case StringType => |b| < f.dataSize
    case _ => |b| == f.dataSize
  }

  /** A number fits its type and size, a string or bytes field its buffer, a submessage the descriptor of its own. */
  predicate ValueInRoom(fields: seq<Field>, i: nat, v: Value)
    requires i < |fields|
    decreases fields, 0
  {
    var f := fields[i];
    if Packable(f.ltype) then v.Int? && FitsNumber(f, v.n)
    else if f.ltype.SubmessageType? then v.Message? && InRoom(f.sub, v.slots)
    else v.Blob? && BlobInRoom(f, v.bytes)
  }

  predicate ItemsInRoom(fields: seq<Field>, i: nat, items: seq<Value>)
    requires i < |fields|
    decreases fields, 1
  {
    |items| <= fields[i].arraySize && forall v | v in items :: ValueInRoom(fields, i, v)
  }

  predicate SlotInRoom(fields: seq<Field>, i: nat, s: Slot)
    requires i < |fields|
    decreases fields, 2
  {
    match fields[i].htype
    case Required => s.Single? && ValueInRoom(fields, i, s.value)
    case Singular => s.Single? && ValueInRoom(fields, i, s.value)
    case Optional => s.Flagged? && ValueInRoom(fields, i, s.value)
    case Repeated => s.Array? && ItemsInRoom(fields, i, s.items)
    case FixedCount => s.Array? && ItemsInRoom(fields, i, s.items)
    case Oneof(home) => if home == i then UnionInRoom(fields, i, s) else s.Shared?
  }

  /** A union is unused or holds a value of the member its tag names. */
  predicate UnionInRoom(fields: seq<Field>, home: nat, s: Slot)
    decreases fields, 1
  {
    s.Union? &&
    (s.which != 0 ==>
       var m := IndexOf(fields, s.which, 0);
       m.Some? && fields[m.value].htype == Oneof(home) && ValueInRoom(fields, m.value, s.value))
  }

  /** A message within the limits of its descriptor, defaults included. */
  predicate InRoom(fields: seq<Field>, slots: seq<Slot>)
    decreases fields, 3
  {
    |slots| == |fields| && forall i {:trigger SlotInRoom(fields, i, slots[i])} | 0 <= i < |fields| ::
      SlotInRoom(fields, i, slots[i])
  }

  predicate DefaultFits(fields: seq<Field>, i: nat)
    requires i < |fields|
    decreases fields, 0
  {
    ValueInRoom(fields, i, DefaultValue(fields, i)) && (fields[i].ltype.SubmessageType? ==> DefaultsFit(fields[i].sub))
  }

  /** Every default value fits, those of submessages included. */
  predicate DefaultsFit(fields: seq<Field>)
    decreases fields, 1
  {
    forall i {:trigger DefaultFits(fields, i)} | 0 <= i < |fields| :: DefaultFits(fields, i)
  }

  lemma DefaultsInRoom(fields: seq<Field>)
    requires DefaultsFit(fields)
    ensures InRoom(fields, Defaults(fields))
  {
    forall i {:trigger SlotInRoom(fields, i, Defaults(fields)[i])} | 0 <= i < |fields|
      ensures SlotInRoom(fields, i, Defaults(fields)[i])
    {
      assert DefaultFits(fields, i) && Defaults(fields)[i] == DefaultSlot(fields, i);
    }
  }

  // ------------------------------------------------------------------ what is read fits

  lemma {:induction false} FixedFits(b: Bytes)
    ensures FromFixed(b) < Capacity(|b|)
    decreases b
  {
    if b != [] {
      FixedFits(b[1..]);
    }
  }

  lemma SignedInRange(n: int, size: nat)
    requires IsIntSize(size) && Signed(n, size) == n
    ensures FitsSigned(n, size)
  {
  }

  lemma NumberFits(f: Field, b: Bytes)
    requires Packable(f.ltype)
    ensures GetNumber(f, b).Some? ==> FitsNumber(f, GetNumber(f, b).value.value)
  {
    if GetNumber(f, b).Some? {
      var n := GetNumber(f, b).value.value;
      if f.ltype.Fixed32Type? || f.ltype.Fixed64Type? {
        var width := if f.ltype.Fixed32Type? then 4 else 8;
        FixedFits(b[..width]);
        Capacities(width);
      } else if f.ltype.VarintType? || f.ltype.SVarintType? {
        SignedInRange(n, f.dataSize);
      }
    }
  }

  lemma BlobFits(f: Field, b: Bytes)
    ensures GetBlob(f, b).Some? && !Packable(f.ltype) && !f.ltype.SubmessageType? ==>
              BlobInRoom(f, GetBlob(f, b).value.value)
  {
  }

  lemma {:induction false} GotInRoom(fields: seq<Field>, i: nat, before: Value, b: Bytes)
    requires WellFormed(fields) && DefaultsFit(fields) && i < |fields|
    requires var f := fields[i];
      f.ltype.SubmessageType? && !f.htype.Repeated? && !f.htype.FixedCount? ==> InRoom(f.sub, SlotsOf(before))
    ensures GetValue(fields, i, before, b).Some? ==> ValueInRoom(fields, i, GetValue(fields, i, before, b).value.value)
    decreases fields, 0, |b|
  {
    var f := fields[i];
    assert FieldOk(fields, i) && DefaultFits(fields, i);
    if Packable(f.ltype) {
      NumberFits(f, b);
    } else if f.ltype.SubmessageType? {
      var s := GetString(b);
      if s.Some? {
        var slots := if f.htype.Repeated? || f.htype.FixedCount? then Defaults(f.sub) else SlotsOf(before);
        DefaultsInRoom(f.sub);
        IntoInRoom(f.sub, slots, s.value.value);
      }
    } else {
      BlobFits(f, b);
    }
  }

  lemma {:induction false} PackedInRoom(fields: seq<Field>, i: nat, items: seq<Value>, b: Bytes)
    requires i < |fields| && Packable(fields[i].ltype) && ItemsInRoom(fields, i, items)
    ensures var r := GetItems(fields[i], items, b);
      r.Some? ==> ItemsInRoom(fields, i, r.value)
    decreases |b|
  {
    hide GetNumber, FitsNumber;
    if b != [] && |items| < fields[i].arraySize {
      NumberFits(fields[i], b);
      var n := GetNumber(fields[i], b);
      if n.Some? {
        PackedInRoom(fields, i, items + [Int(n.value.value)], n.value.rest);
      }
    }
  }

  /** A new slot for a field that is no oneof, or for the home of one. */
  lemma SlotStored(fields: seq<Field>, slots: seq<Slot>, i: nat, s: Slot)
    requires InRoom(fields, slots) && i < |fields| && SlotInRoom(fields, i, s)
    ensures InRoom(fields, slots[i := s])
  {
    var next := slots[i := s];
    forall j {:trigger SlotInRoom(fields, j, next[j])} | 0 <= j < |fields|
      ensures SlotInRoom(fields, j, next[j])
    {
      assert SlotInRoom(fields, j, slots[j]);
    }
  }

  lemma EntriesInRoom(fields: seq<Field>, i: nat, s: Slot, n: nat)
    requires i < |fields| && SlotInRoom(fields, i, s) && (fields[i].htype.Repeated? || fields[i].htype.FixedCount?)
    ensures ItemsInRoom(fields, i, ItemsIn(s)) && ItemsInRoom(fields, i, Entries(s, n))
  {
    assert s.Array? && ItemsInRoom(fields, i, s.items);
  }

  lemma {:induction false} ItemsStored(fields: seq<Field>, i: nat, wireType: nat, slots: seq<Slot>, count: nat,
                                       b: Bytes)
    requires WellFormed(fields) && DefaultsFit(fields) && InRoom(fields, slots) && i < |fields|
    requires fields[i].htype.Repeated? || fields[i].htype.FixedCount?
    ensures var r := StoreItems(fields, i, wireType, slots, count, b);
      r.Some? ==> InRoom(fields, r.value.value.slots)
    decreases fields, 1, |b|
  {
    var f := fields[i];
    assert SlotInRoom(fields, i, slots[i]);
    var items := if f.htype.FixedCount? then Entries(slots[i], count) else ItemsIn(slots[i]);
    EntriesInRoom(fields, i, slots[i], count);
    var r := StoreItems(fields, i, wireType, slots, count, b);
    if r.Some? {
      if wireType == WT_STRING && Packable(f.ltype) {
        var p := GetString(b).value;
        PackedInRoom(fields, i, items, p.value);
        SlotStored(fields, slots, i, Array(GetItems(f, items, p.value).value));
      } else {
        GotInRoom(fields, i, Unset, b);
        var v := GetValue(fields, i, Unset, b).value.value;
        assert ItemsInRoom(fields, i, items + [v]);
        SlotStored(fields, slots, i, Array(items + [v]));
      }
    }
  }

  lemma BeforeInRoom(fields: seq<Field>, i: nat, slots: seq<Slot>)
    requires WellFormed(fields) && DefaultsFit(fields) && InRoom(fields, slots) && i < |fields|
    requires fields[i].ltype.SubmessageType? && !fields[i].htype.Repeated? && !fields[i].htype.FixedCount?
    ensures InRoom(fields[i].sub, SlotsOf(Before(fields, i, slots)))
  {
    var f := fields[i];
    assert FieldOk(fields, i) && DefaultFits(fields, i);
    if f.htype.Oneof? {
      assert SlotInRoom(fields, f.htype.home, slots[f.htype.home]);
      DefaultsInRoom(f.sub);
      IndexIs(fields, i, 0);
      if WhichIn(slots[f.htype.home]) == f.tag {
        MemberInRoom(fields, i, slots[f.htype.home]);
      }
    } else {
      assert SlotInRoom(fields, i, slots[i]);
      PlainInRoom(fields, i, slots[i]);
    }
  }

  lemma MemberInRoom(fields: seq<Field>, i: nat, u: Slot)
    requires i < |fields| && fields[i].htype.Oneof? && WhichIn(u) == fields[i].tag > 0
    requires UnionInRoom(fields, fields[i].htype.home, u) && IndexOf(fields, fields[i].tag, 0) == Some(i)
    ensures ValueInRoom(fields, i, u.value)
    ensures fields[i].ltype.SubmessageType? ==> InRoom(fields[i].sub, SlotsOf(u.value))
  {
  }

  lemma PlainInRoom(fields: seq<Field>, i: nat, s: Slot)
    requires i < |fields| && SlotInRoom(fields, i, s)
    requires fields[i].htype.Required? || fields[i].htype.Singular? || fields[i].htype.Optional?
    ensures ValueInRoom(fields, i, ValueIn(s))
    ensures fields[i].ltype.SubmessageType? ==> InRoom(fields[i].sub, SlotsOf(ValueIn(s)))
  {
  }

  lemma ValueStored(fields: seq<Field>, i: nat, slots: seq<Slot>, v: Value)
    requires WellFormed(fields) && InRoom(fields, slots) && i < |fields| && ValueInRoom(fields, i, v)
    requires !fields[i].htype.Repeated? && !fields[i].htype.FixedCount?
    ensures InRoom(fields, WithValue(fields[i], i, slots, v))
  {
    var f := fields[i];
    assert FieldOk(fields, i);
    if f.htype.Oneof? {
      IndexIs(fields, i, 0);
      assert UnionInRoom(fields, f.htype.home, Union(f.tag, v));
      SlotStored(fields, slots, f.htype.home, Union(f.tag, v));
    } else {
      SlotStored(fields, slots, i, if f.htype.Optional? then Flagged(true, v) else Single(v));
    }
  }

  lemma {:induction false} NextInRoom(fields: seq<Field>, i: nat, wireType: nat, st: State, b: Bytes)
    requires WellFormed(fields) && DefaultsFit(fields) && InRoom(fields, st.slots) && i < |fields|
    ensures var r := StoreNext(fields, i, wireType, st, b);
      r.Some? ==> InRoom(fields, r.value.value.slots)
    decreases fields, 2, |b|
  {
    hide InRoom, WellFormed, DefaultsFit, StoreItems, GetValue;
    var f := fields[i];
    var counting := Counting(fields, i, st);
    if counting.Some? {
      var s := Seeing(fields, i, counting.value);
      assert s.slots == st.slots;
      if f.htype.Repeated? || f.htype.FixedCount? {
        ItemsStored(fields, i, wireType, st.slots, s.fixedCount, b);
      } else {
        var before := Before(fields, i, st.slots);
        if f.ltype.SubmessageType? {
          BeforeInRoom(fields, i, st.slots);
        }
        GotInRoom(fields, i, before, b);
        var v := GetValue(fields, i, before, b);
        if v.Some? {
          ValueStored(fields, i, st.slots, v.value.value);
        }
      }
    }
  }

  lemma {:induction false} FromInRoom(fields: seq<Field>, st: State, b: Bytes)
    requires WellFormed(fields) && DefaultsFit(fields) && InRoom(fields, st.slots)
    ensures var r := DecodedFrom(fields, st, b);
      r.Some? ==> InRoom(fields, r.value.value.slots)
    decreases fields, 3, |b|
  {
    hide InRoom, WellFormed, DefaultsFit, StoreNext, IndexOf, Skipped;
    if b != [] {
      var t := DecodedVarint32(b);
      if t.Some? && t.value.value != 0 {
        if fields == [] && t.value.value / 8 == 0 {
          var n := DecodedVarint32(t.value.rest);
          if n.Some? {
            FromInRoom(fields, st, n.value.rest);
          }
        } else {
          var i := IndexOf(fields, t.value.value / 8, 0);
          if i.Some? {
            NextInRoom(fields, i.value, t.value.value % 8, st, t.value.rest);
            var g := StoreNext(fields, i.value, t.value.value % 8, st, t.value.rest);
            if g.Some? {
              FromInRoom(fields, g.value.value, g.value.rest);
            }
          } else {
            var rest := Skipped(t.value.value % 8, t.value.rest);
            if rest.Some? {
              FromInRoom(fields, st, rest.value);
            }
          }
        }
      }
    }
  }

  lemma {:induction false} IntoInRoom(fields: seq<Field>, slots: seq<Slot>, b: Bytes)
    requires WellFormed(fields) && DefaultsFit(fields) && InRoom(fields, slots)
    ensures DecodedInto(fields, slots, b).Some? ==> InRoom(fields, DecodedInto(fields, slots, b).value.value)
    decreases fields, 4, |b|
  {
    FromInRoom(fields, Start(slots), b);
  }

  /** Whatever bytes are decoded, the message is within the limits of its descriptor: no array has more entries than it
      holds, no string or bytes field more than its buffer, and every number fits, in submessages too. */
  lemma DecodedInRoom(fields: seq<Field>, b: Bytes)
    requires WellFormed(fields) && DefaultsFit(fields)
    ensures Decoded(fields, b).Some? ==> InRoom(fields, Decoded(fields, b).value.value)
  {
    DefaultsInRoom(fields);
    IntoInRoom(fields, Defaults(fields), b);
  }

  // ------------------------------------------------------------------ unknown fields

  lemma {:induction false} VarintSkipped(v: nat, rest: Bytes)
    ensures AfterVarint(Varint(v) + rest) == Some(rest)
    decreases v
  {
    VarintOctets(v, rest);
    if v >= 128 {
      VarintSkipped(v / 128, rest);
    }
  }

  lemma FixedSkipped(width: nat, n: nat, rest: Bytes)
    ensures (FixedBytes(width, n) + rest)[width..] == rest
  {
  }

  /** What the encoder writes for a value can be skipped, its wire type telling how. */
  lemma ValueSkipped(other: seq<Field>, j: nat, v: Value, rest: Bytes)
    requires j < |other| && EncodedValue(other, j, v).Some? && |EncodedValue(other, j, v).value| < TWO_32
    ensures Skipped(WireType(other[j].ltype), EncodedValue(other, j, v).value + rest) == Some(rest)
  {
    var f := other[j];
    match f.ltype
    case BoolType => VarintSkipped(if Num(v) != 0 then 1 else 0, rest);
    case VarintType => VarintSkipped(Unsigned(Num(v)), rest);
    case UVarintType => VarintSkipped(Unsigned(Num(v)), rest);
    case SVarintType => VarintSkipped(ZigZag(Num(v)), rest);
    case Fixed32Type => FixedSkipped(4, Unsigned(Num(v)), rest);
    case Fixed64Type => FixedSkipped(8, Unsigned(Num(v)), rest);
    case BytesType => StringGets(BytesOf(v), rest);
    case StringType => StringGets(CString(BytesOf(v), f.dataSize), rest);
    case FixedLengthBytesType => StringGets(BytesOf(v), rest);
    case SubmessageType => StringGets(EncodedFrom(f.sub, SlotsOf(v), 0).value, rest);
  }

  lemma TagUnknown(fields: seq<Field>, st: State, wireType: nat, tag: nat, b: Bytes, rest: Bytes)
    requires wireType < 8 && 0 < tag < 0x2000_0000 && IndexOf(fields, tag, 0) == None
    requires Skipped(wireType, b) == Some(rest)
    ensures DecodedFrom(fields, st, TagBytes(wireType, tag) + b) == DecodedFrom(fields, st, rest)
  {
    hide Skipped, IndexOf;
    var t := tag * 8 + wireType;
    Varint32Back(t, b);
    assert t / 8 == tag && t % 8 == wireType;
    assert TagBytes(wireType, tag) + b != [];
  }

  /** A value that was written for another descriptor, under a tag this one does not have, changes nothing. */
  lemma UnknownSkipped(fields: seq<Field>, st: State, other: seq<Field>, j: nat, v: Value, rest: Bytes)
    requires j < |other| && 0 < other[j].tag < 0x2000_0000
    requires forall i | 0 <= i < |fields| :: fields[i].tag != other[j].tag
    requires TaggedValue(other, j, v).Some? && |TaggedValue(other, j, v).value| < TWO_32
    ensures DecodedFrom(fields, st, TaggedValue(other, j, v).value + rest) == DecodedFrom(fields, st, rest)
  {
    hide EncodedValue, Skipped, DecodedFrom;
    var wireType, b := WireType(other[j].ltype), EncodedValue(other, j, v).value;
    ValueSkipped(other, j, v, rest);
    Regroup(FieldTag(other[j]), b, rest);
    assert IndexOf(fields, other[j].tag, 0) == None;
    TagUnknown(fields, st, wireType, other[j].tag, b + rest, rest);
  }

  // ------------------------------------------------------------------ 32-bit varints

  predicate AllAlike(group: nat) {
    group == 0 || group == 127
  }

  /** The bits of `w`, which are those from `bitpos` on, are taken for an extension of the sign: the groups of seven are
      each all ones or all zeros, and the last bit is one. */
  predicate Extension(w: nat, bitpos: nat)
    requires HighPosition(bitpos)
    decreases 63 - bitpos
  {
    if bitpos == 63 then w == 1 else w >= 128 && AllAlike(w % 128) && Extension(w / 128, bitpos + 7)
  }

  predicate HighPosition(bitpos: nat) {
    bitpos == 35 || bitpos == 42 || bitpos == 49 || bitpos == 56 || bitpos == 63
  }

  /** How large a number is whose bits are those of a 64-bit number from `bitpos` on. */
  function Beyond(bitpos: nat): nat
    requires HighPosition(bitpos)
  {
    if bitpos == 35 then 0x2000_0000 else if bitpos == 42 then 0x40_0000 else if bitpos == 49 then 0x8000
    else if bitpos == 56 then 0x100 else 2
  }

  lemma {:induction false} HighBits(w: nat, result: nat, bitpos: nat, rest: Bytes)
    requires HighPosition(bitpos) && 0 < w < Beyond(bitpos) && result < TWO_32
    ensures RestOfVarint32(Varint(w) + rest, result, bitpos) ==
            if result >= 0x8000_0000 && Extension(w, bitpos) then Some(Got(result, rest)) else None
    decreases 63 - bitpos
  {
    VarintOctets(w, rest);
    var b := Varint(w) + rest;
    hide Varint;
    if w >= 128 {
      HighOctet(b, result, bitpos);
      HighBits(w / 128, result, bitpos + 7, rest);
    } else {
      LastHighOctet(b, result, bitpos);
    }
  }

  lemma HighOctet(b: Bytes, result: nat, bitpos: nat)
    requires HighPosition(bitpos) && bitpos < 63 && b != [] && b[0] >= 128 && result < TWO_32
    ensures RestOfVarint32(b, result, bitpos) ==
            if b[0] == 128 || (b[0] == 255 && result >= 0x8000_0000) then RestOfVarint32(b[1..], result, bitpos + 7)
            else None
  {
  }

  lemma LastHighOctet(b: Bytes, result: nat, bitpos: nat)
    requires HighPosition(bitpos) && b != [] && 0 < b[0] < 128 && result < TWO_32
    ensures RestOfVarint32(b, result, bitpos) ==
            if bitpos == 63 && b[0] == 1 && result >= 0x8000_0000 then Some(Got(result, b[1..])) else None
  {
  }

  /** The first four bytes of a longer number. */
  lemma FourOctets(v: nat, rest: Bytes)
    requires v >= 0x1000_0000
    ensures RestOfVarint32(Varint(v) + rest, 0, 0) ==
            RestOfVarint32(Varint(v / 0x1000_0000) + rest, v % 0x1000_0000, 28)
  {
    hide Varint, RestOfVarint32;
    var v1, v2, v3 := v / 128, v / 128 / 128, v / 128 / 128 / 128;
    var r1 := v % 128;
    var r2 := r1 + v1 % 128 * 128;
    var r3 := r2 + v2 % 128 * 16384;
    var r4 := r3 + v3 % 128 * 0x20_0000;
    assert v == r4 + v3 / 128 * 0x1000_0000 && v3 / 128 == v / 0x1000_0000 && r4 == v % 0x1000_0000;
    Units(0);
    Units(7);
    Units(14);
    Units(21);
    NextOctet(v, 0, 0, r1, rest);
    NextOctet(v1, r1, 7, r2, rest);
    NextOctet(v2, r2, 14, r3, rest);
    NextOctet(v3, r3, 21, r4, rest);
  }

  lemma FifthOctet(b: Bytes, result: nat)
    requires b != [] && result < 0x1000_0000
    ensures var sum := (result + b[0] as nat % 128 * 0x1000_0000) % TWO_32;
      RestOfVarint32(b, result, 28) ==
      if b[0] >= 128 then RestOfVarint32(b[1..], sum, 35) else if b[0] < 16 then Some(Got(sum, b[1..])) else None
  {
    Units(28);
  }

  /** Which 64-bit numbers are read as 32-bit ones, by their low 32 bits: those that fit, and those with bit 31 and
      bit 63 set whose bits from 35 on are, in groups of seven, all ones or all zeros. Bits 32 to 34 do not matter. */
  lemma Varint32Exact(v: uint64, rest: Bytes)
    ensures DecodedVarint32(Varint(v) + rest) ==
            if v < TWO_32 || (v % TWO_32 >= 0x8000_0000 && v >= TWO_32 * 8 && Extension(v / (TWO_32 * 8), 35))
            then Some(Got(v % TWO_32, rest)) else None
  {
    hide Varint, RestOfVarint32, Extension;
    if v < 0x1000_0000 {
      Varint32Back(v, rest);
    } else {
      var u, r := v / 0x1000_0000, v % 0x1000_0000;
      FourOctets(v, rest);
      LowBitsAre(v, u, r);
      HighOctets(v, u, r, rest);
    }
  }

  lemma HighOctets(v: uint64, u: nat, r: nat, rest: Bytes)
    requires r < 0x1000_0000 && (r + u % 128 * 0x1000_0000) % TWO_32 == v % TWO_32
    requires u / 128 == v / (TWO_32 * 8) < 0x2000_0000 && (u < 16 <==> v < TWO_32) && (u < 128 <==> v < TWO_32 * 8)
    ensures RestOfVarint32(Varint(u) + rest, r, 28) ==
            if v < TWO_32 || (v % TWO_32 >= 0x8000_0000 && v >= TWO_32 * 8 && Extension(v / (TWO_32 * 8), 35))
            then Some(Got(v % TWO_32, rest)) else None
  {
    hide Varint, RestOfVarint32, Extension;
    VarintOctets(u, rest);
    FifthOctet(Varint(u) + rest, r);
    if u >= 128 {
      HighBits(u / 128, v % TWO_32, 35, rest);
    }
  }

  lemma LowBitsAre(v: uint64, u: nat, r: nat)
    requires u == v / 0x1000_0000 && r == v % 0x1000_0000
    ensures (r + u % 128 * 0x1000_0000) % TWO_32 == v % TWO_32 && u / 128 == v / (TWO_32 * 8) < 0x2000_0000
    ensures u < 16 <==> v < TWO_32
    ensures u < 128 <==> v < TWO_32 * 8
  {
    var high, group := u / 128, u % 128;
    var low := r + group * 0x1000_0000;
    assert v == r + 0x1000_0000 * u && u == group + 128 * high;
    assert v == low + TWO_32 * (8 * high);
    SameLow(low, 8 * high);
    HighPart(v, high, low);
  }

  lemma SameLow(a: nat, k: nat)
    ensures (a + TWO_32 * k) % TWO_32 == a % TWO_32
  {
  }

  lemma HighPart(v: nat, high: nat, low: nat)
    requires v == low + TWO_32 * 8 * high && low < TWO_32 * 8
    ensures v / (TWO_32 * 8) == high
  {
  }

  /** A negative 32-bit number, written with 64 bits, is read with 32. */
  lemma NegativeBack(n: int, rest: Bytes)
    requires -0x8000_0000 <= n < 0
    ensures DecodedVarint32(Varint(Unsigned(n)) + rest) == Some(Got(n + TWO_32, rest))
  {
    hide Varint, RestOfVarint32, Extension;
    var v := Unsigned(n);
    assert v == n + TWO_64 && v % TWO_32 == n + TWO_32;
    Varint32Exact(v, rest);
    assert v / (TWO_32 * 8) == 0x1fff_ffff;
    OnesExtend();
  }

  /** A number that is no sign extension, bit 32 being zero, is read all the same. */
  lemma OtherNumberRead(rest: Bytes)
    ensures DecodedVarint32(Varint(0xffff_fffe_ffff_ffff) + rest) == Some(Got(0xffff_ffff, rest))
  {
    hide Varint, RestOfVarint32, Extension;
    Varint32Exact(0xffff_fffe_ffff_ffff, rest);
    OnesExtend();
  }

  lemma OnesExtend()
    ensures Extension(0x1fff_ffff, 35)
  {
    assert Extension(1, 63) && Extension(0xff, 56) && Extension(0x7fff, 49) && Extension(0x3f_ffff, 42);
  }

  // ------------------------------------------------------------------ the wire format

  /** Bytes of the protocol buffer encoding: field 1 holding 150 as a varint, zigzag numbers, a string in field 2, and a
      fixed number in field 3. */
  lemma WireBytes()
    ensures TagBytes(WT_VARINT, 1) + Varint(150) == [0x08, 0x96, 0x01]
    ensures ZigZag(0) == 0 && ZigZag(-1) == 1 && ZigZag(1) == 2 && ZigZag(-2) == 3
    ensures TagBytes(WT_STRING, 2) + Delimited([0x74, 0x65]) == [0x12, 0x02, 0x74, 0x65]
    ensures TagBytes(WT_32BIT, 3) + FixedBytes(4, 1) == [0x1d, 1, 0, 0, 0]
  {
  }
}
