// The nanopb encoder, and its sizing streams (nanopb/pb_encode.c).

module NanopbEncode {
  import opened Keys
  import opened Coding
  import opened Varints
  import opened NanopbFields

  // ------------------------------------------------------------------ the bytes of a message

  const WT_VARINT: nat := 0
  const WT_64BIT: nat := 1
  const WT_STRING: nat := 2
  const WT_32BIT: nat := 5

  function WireType(t: LType): nat {
    match t
    case Fixed32Type => WT_32BIT
    case Fixed64Type => WT_64BIT
    case BytesType => WT_STRING
    case StringType => WT_STRING
    case SubmessageType => WT_STRING
    case FixedLengthBytesType => WT_STRING
    case _ => WT_VARINT
  }

  function TagBytes(wireType: nat, tag: nat): Bytes {
    Varint(tag * 8 + wireType)
  }

  function FieldTag(f: Field): Bytes {
    TagBytes(WireType(f.ltype), f.tag)
  }

  function Delimited(b: Bytes): Bytes {
    Varint(|b|) + b
  }

  /** Where a bytes field keeps its bytes, after their count. */
  const BYTES_OFFSET: nat := 4

  predicate IsIntSize(n: nat) {
    n == 1 || n == 2 || n == 4 || n == 8
  }

  /** A signed number as an unsigned one of 64 bits. */
  function Unsigned(n: int): uint64 {
    n % TWO_64
  }

  function ZigZag(n: int): uint64 {
    (if n < 0 then -2 * n - 1 else 2 * n) % TWO_64
  }

  function Join(a: Option<Bytes>, b: Option<Bytes>): Option<Bytes> {
    if a.Some? && b.Some? then Some(a.value + b.value) else None
  }

  function FixedBytes(width: nat, n: nat): (r: Bytes)
    ensures |r| == width
    decreases width, n
  {
    if width == 0 then [] else [(n % 256) as byte] + FixedBytes(width - 1, n / 256)
  }

  /** The encoder of the field's type; None is an error. */
  function EncodedValue(fields: seq<Field>, i: nat, v: Value): Option<Bytes>
    requires i < |fields|
    decreases fields, 0
  {
    var f := fields[i];
    match f.ltype
    case BoolType => Some(Varint(if Num(v) != 0 then 1 else 0))
    case VarintType => if IsIntSize(f.dataSize) then Some(Varint(Unsigned(Num(v)))) else None
    case UVarintType => if IsIntSize(f.dataSize) then Some(Varint(Unsigned(Num(v)))) else None
    case SVarintType => if IsIntSize(f.dataSize) then Some(Varint(ZigZag(Num(v)))) else None
    case Fixed32Type => Some(FixedBytes(4, Unsigned(Num(v))))
    case Fixed64Type => Some(FixedBytes(8, Unsigned(Num(v))))
    case BytesType => if |BytesOf(v)| + BYTES_OFFSET > f.dataSize then None else Some(Delimited(BytesOf(v)))
    case StringType => Some(Delimited(CString(BytesOf(v), f.dataSize)))
    case FixedLengthBytesType => Some(Delimited(BytesOf(v)))
    case SubmessageType =>
      match EncodedFrom(f.sub, SlotsOf(v), 0)
      case None => None
      case Some(b) => Some(Delimited(b))
  }

  function TaggedValue(fields: seq<Field>, i: nat, v: Value): Option<Bytes>
    requires i < |fields|
    decreases fields, 1
  {
    Join(Some(FieldTag(fields[i])), EncodedValue(fields, i, v))
  }

  /** The values of a packed array, one after the other. */
  function EncodedItems(fields: seq<Field>, i: nat, items: seq<Value>): Option<Bytes>
    requires i < |fields|
    decreases fields, 2, items
  {
    if items == [] then Some([]) else Join(EncodedValue(fields, i, items[0]), EncodedItems(fields, i, items[1..]))
  }

  function TaggedItems(fields: seq<Field>, i: nat, items: seq<Value>): Option<Bytes>
    requires i < |fields|
    decreases fields, 2, items
  {
    if items == [] then Some([]) else Join(TaggedValue(fields, i, items[0]), TaggedItems(fields, i, items[1..]))
  }

  function EncodedArray(fields: seq<Field>, i: nat, items: seq<Value>): Option<Bytes>
    requires i < |fields|
    decreases fields, 3
  {
    var f := fields[i];
    if items == [] then Some([])
    else if |items| > f.arraySize then None
    else if Packable(f.ltype) then
      match EncodedItems(fields, i, items)
      case None => None
      case Some(b) => Some(TagBytes(WT_STRING, f.tag) + Delimited(b))
    else
      TaggedItems(fields, i, items)
  }

  function EncodedField(fields: seq<Field>, slots: seq<Slot>, i: nat): Option<Bytes>
    requires i < |fields|
    decreases fields, 4
  {
    var s := SlotAt(slots, i);
    match fields[i].htype
    case Required => TaggedValue(fields, i, ValueIn(s))
    case Optional => if HasIn(s) then TaggedValue(fields, i, ValueIn(s)) else Some([])
    case Singular => if IsZero(fields, i, ValueIn(s)) then Some([]) else TaggedValue(fields, i, ValueIn(s))
    case Repeated => EncodedArray(fields, i, ItemsIn(s))
    case FixedCount => EncodedArray(fields, i, ItemsIn(s))
    case Oneof(home) =>
      var u := SlotAt(slots, home);
      if WhichIn(u) == fields[i].tag then TaggedValue(fields, i, ValueIn(u)) else Some([])
  }

  function EncodedFrom(fields: seq<Field>, slots: seq<Slot>, i: nat): Option<Bytes>
    decreases fields, 5, |fields| - i
  {
    if i >= |fields| then Some([]) else Join(EncodedField(fields, slots, i), EncodedFrom(fields, slots, i + 1))
  }

  // ------------------------------------------------------------------ streams

  /** An output stream: over a buffer of limited size, or only counting. */
  class OStream {
    const writing: bool
    var out: Bytes
    var maxSize: nat
    var bytesWritten: nat

    constructor Sizing()
      ensures !writing && out == [] && bytesWritten == 0
    {
      writing, out, maxSize, bytesWritten := false, [], 0, 0;
    }

    constructor FromBuffer(size: nat)
      ensures writing && out == [] && maxSize == size && bytesWritten == 0
    {
      writing, out, maxSize, bytesWritten := true, [], size, 0;
    }

    /** A stream that goes on where `parent` is, for at most `size` bytes. */
    constructor Within(parent: OStream, size: nat)
      ensures writing == parent.writing && out == parent.out && maxSize == size && bytesWritten == 0
    {
      writing, out, maxSize, bytesWritten := parent.writing, parent.out, size, 0;
    }

    predicate Room(n: nat)
      reads this
    {
      writing ==> bytesWritten + n <= maxSize
    }

    /** What every encoder promises: it succeeds exactly when there is something to encode and it fits, and has then
        written that and nothing else. It never writes past the limit. */
    twostate predicate Appended(ok: bool, new e: Option<Bytes>)
      reads this
    {
      ok == (e.Some? && old(Room(|e.value|))) && maxSize == old(maxSize) && Room(0) &&
      (ok ==> bytesWritten == old(bytesWritten) + |e.value| && out == old(out) + if writing then e.value else []) &&
      old(bytesWritten) <= bytesWritten && (writing ==> |out| - bytesWritten == |old(out)| - old(bytesWritten))
    }

    /** pb_write. */
    method Write(b: Bytes) returns (ok: bool)
      requires Room(0)
      modifies this
      ensures Appended(ok, Some(b))
    {
      if |b| > 0 && writing {
        if bytesWritten + |b| > maxSize {
          return false;
        }
        out := out + b;
      }
      bytesWritten := bytesWritten + |b|;
      return true;
    }

    method EncodeVarint(value: nat) returns (ok: bool)
      requires Room(0)
      modifies this
      ensures Appended(ok, Some(Varint(value)))
    {
      if value <= 0x7F {
        ok := Write([value as byte]);
        return;
      }
      var buffer: Bytes := [];
      var v := value;
      while v > 0
        invariant buffer + Continued(v) == Continued(value)
      {
        assert buffer + [Low(v)] + Continued(v / 128) == buffer + ([Low(v)] + Continued(v / 128));
        buffer := buffer + [Low(v)];
        v := v / 128;
      }
      LastByte(value);
      buffer := buffer[|buffer| - 1 := buffer[|buffer| - 1] - 128];
      ok := Write(buffer);
    }

    method EncodeTag(wireType: nat, tag: nat) returns (ok: bool)
      requires Room(0)
      modifies this
      ensures Appended(ok, Some(TagBytes(wireType, tag)))
    {
      ok := EncodeVarint(tag * 8 + wireType);
    }

    method EncodeString(b: Bytes) returns (ok: bool)
      requires Room(0)
      modifies this
      ensures Appended(ok, Some(Delimited(b)))
    {
      ok := EncodeVarint(|b|);
      if !ok {
        return;
      }
      ok := Write(b);
      Regroup(old(out), Varint(|b|), b);
    }
  }

  /** Seven bits a byte, all with the continuation bit. */
  function Continued(v: nat): Bytes {
    if v == 0 then [] else [Low(v)] + Continued(v / 128)
  }

  lemma {:induction false} LastByte(v: nat)
    requires v > 0
    ensures var c := Continued(v);
      c != [] && c[|c| - 1] >= 128 && c[|c| - 1 := c[|c| - 1] - 128] == Varint(v)
    decreases v
  {
    if v >= 128 {
      LastByte(v / 128);
    } else {
      assert Continued(v / 128) == [];
    }
  }

  // ------------------------------------------------------------------ encoding a message

  function DelimitedBody(body: Option<Bytes>): Option<Bytes> {
    match body
    case None => None
    case Some(b) => Some(Delimited(b))
  }

  method EncodeTagForField(stream: OStream, f: Field) returns (ok: bool)
    requires stream.Room(0)
    modifies stream
    ensures stream.Appended(ok, Some(FieldTag(f)))
  {
    ok := stream.EncodeTag(WireType(f.ltype), f.tag);
  }

  method EncodeNumber(stream: OStream, fields: seq<Field>, i: nat, n: int) returns (ok: bool)
    requires stream.Room(0) && i < |fields| && Packable(fields[i].ltype)
    modifies stream
    ensures stream.Appended(ok, EncodedValue(fields, i, Int(n)))
  {
    var f := fields[i];
    if f.ltype.BoolType? {
      ok := stream.EncodeVarint(if n != 0 then 1 else 0);
    } else if f.ltype.Fixed32Type? {
      ok := stream.Write(FixedBytes(4, Unsigned(n)));
    } else if f.ltype.Fixed64Type? {
      ok := stream.Write(FixedBytes(8, Unsigned(n)));
    } else if IsIntSize(f.dataSize) {
      ok := stream.EncodeVarint(if f.ltype.SVarintType? then ZigZag(n) else Unsigned(n));
    } else {
      ok := false;
    }
  }

  lemma NumberOnly(fields: seq<Field>, i: nat, v: Value)
    requires i < |fields| && Packable(fields[i].ltype)
    ensures EncodedValue(fields, i, v) == EncodedValue(fields, i, Int(Num(v)))
  {
  }

  /** The field encoders, chosen by the field's type. */
  method EncodeValue(stream: OStream, fields: seq<Field>, i: nat, v: Value) returns (ok: bool)
    requires stream.Room(0) && i < |fields|
    modifies stream
    ensures stream.Appended(ok, EncodedValue(fields, i, v))
    decreases fields, 0
  {
    var f := fields[i];
    if Packable(f.ltype) {
      NumberOnly(fields, i, v);
      ok := EncodeNumber(stream, fields, i, Num(v));
    } else if f.ltype.BytesType? {
      if |BytesOf(v)| + BYTES_OFFSET > f.dataSize {
        return false;
      }
      ok := stream.EncodeString(BytesOf(v));
    } else if f.ltype.StringType? {
      var length := StringLength(BytesOf(v), f.dataSize);
      ok := stream.EncodeString(BytesOf(v)[..length]);
    } else if f.ltype.FixedLengthBytesType? {
      ok := stream.EncodeString(BytesOf(v));
    } else {
      ok := EncodeSubmessage(stream, f.sub, SlotsOf(v));
    }
  }

  method StringLength(b: Bytes, maxSize: nat) returns (size: nat)
    ensures size <= |b| && b[..size] == CString(b, maxSize)
  {
    size := 0;
    while size < maxSize && size < |b| && b[size] != 0
      invariant size <= |b| && size <= maxSize && b[..size] + CString(b[size..], maxSize - size) == CString(b, maxSize)
    {
      assert b[size..][1..] == b[size + 1..];
      assert b[..size] + [b[size]] == b[..size + 1];
      Regroup(b[..size], [b[size]], CString(b[size + 1..], maxSize - size - 1));
      size := size + 1;
    }
  }

  method EncodeTaggedValue(stream: OStream, fields: seq<Field>, i: nat, v: Value) returns (ok: bool)
    requires stream.Room(0) && i < |fields|
    modifies stream
    ensures stream.Appended(ok, TaggedValue(fields, i, v))
    decreases fields, 1
  {
    ok := EncodeTagForField(stream, fields[i]);
    if !ok {
      return;
    }
    ok := EncodeValue(stream, fields, i, v);
    if ok {
      Regroup(old(stream.out), FieldTag(fields[i]), EncodedValue(fields, i, v).value);
    }
  }

  /** The size comes from a sizing stream, and the second pass writes exactly as much: that the submessage changed its
      size in between is an error that cannot happen. */
  method EncodeSubmessage(stream: OStream, fields: seq<Field>, slots: seq<Slot>) returns (ok: bool)
    requires stream.Room(0)
    modifies stream
    ensures stream.Appended(ok, DelimitedBody(EncodedFrom(fields, slots, 0)))
    decreases fields, 7
  {
    var substream := new OStream.Sizing();
    var sized := Encode(substream, fields, slots);
    if !sized {
      return false;
    }
    var size := substream.bytesWritten;
    ok := stream.EncodeVarint(size);
    if !ok {
      return;
    }
    if !stream.writing {
      stream.bytesWritten := stream.bytesWritten + size;
      return true;
    }
    if stream.bytesWritten + size > stream.maxSize {
      return false;
    }
    ghost var body := EncodedFrom(fields, slots, 0).value;
    Regroup(old(stream.out), Varint(size), body);
    substream := new OStream.Within(stream, size);
    ok := Encode(substream, fields, slots);
    stream.bytesWritten := stream.bytesWritten + substream.bytesWritten;
    stream.out := substream.out;
    assert substream.bytesWritten == size;
  }

  /** pb_encode. */
  method Encode(stream: OStream, fields: seq<Field>, slots: seq<Slot>) returns (ok: bool)
    requires stream.Room(0)
    modifies stream
    ensures stream.Appended(ok, EncodedFrom(fields, slots, 0))
    decreases fields, 6
  {
    var iter := new FieldIter.Begin(fields);
    if fields == [] {
      return true;
    }
    var more := true;
    ghost var done: Bytes := [];
    JoinAssociates(done, None, EncodedFrom(fields, slots, 0));
    while more
      invariant iter.Valid() && iter.fields == fields && fresh(iter) && stream.Room(0)
      invariant EncodedFrom(fields, slots, 0) ==
                Join(Some(done), if more then EncodedFrom(fields, slots, iter.pos) else Some([]))
      invariant stream.maxSize == old(stream.maxSize) && stream.bytesWritten == old(stream.bytesWritten) + |done|
      invariant stream.out == old(stream.out) + if stream.writing then done else []
      decreases more, |fields| - iter.pos
    {
      ghost var e := EncodedField(fields, slots, iter.pos);
      JoinAssociates(done, e, EncodedFrom(fields, slots, iter.pos + 1));
      ok := EncodeField(stream, fields, slots, iter.pos);
      if !ok {
        return;
      }
      Regroup(old(stream.out), done, e.value);
      done := done + e.value;
      more := iter.Next();
    }
    ok := true;
  }

  lemma JoinAssociates(done: Bytes, a: Option<Bytes>, b: Option<Bytes>)
    ensures Join(Some(done), Join(a, b)) == Join(Join(Some(done), a), b) && Join(Some([]), b) == b
  {
    if a.Some? && b.Some? {
      Regroup(done, a.value, b.value);
    }
    if b.Some? {
      assert [] + b.value == b.value;
    }
  }

  method EncodeField(stream: OStream, fields: seq<Field>, slots: seq<Slot>, i: nat) returns (ok: bool)
    requires stream.Room(0) && i < |fields|
    modifies stream
    ensures stream.Appended(ok, EncodedField(fields, slots, i))
    decreases fields, 4
  {
    var f, s := fields[i], SlotAt(slots, i);
    match f.htype {
      case Required =>
        ok := EncodeTaggedValue(stream, fields, i, ValueIn(s));
      case Optional =>
        ok := true;
        if HasIn(s) {
          ok := EncodeTaggedValue(stream, fields, i, ValueIn(s));
        }
      case Singular =>
        ok := true;
        var implicitHas := !IsZero(fields, i, ValueIn(s));
        if implicitHas {
          ok := EncodeTaggedValue(stream, fields, i, ValueIn(s));
        }
      case Repeated =>
        ok := EncodeArray(stream, fields, i, ItemsIn(s));
      case FixedCount =>
        ok := EncodeArray(stream, fields, i, ItemsIn(s));
      case Oneof(home) =>
        ok := true;
        var u := SlotAt(slots, home);
        if WhichIn(u) == f.tag {
          ok := EncodeTaggedValue(stream, fields, i, ValueIn(u));
        }
    }
  }

  /** An array is packed if its type allows. The size of a packed array comes from a sizing stream,
      or from the count. */
  method EncodeArray(stream: OStream, fields: seq<Field>, i: nat, items: seq<Value>) returns (ok: bool)
    requires stream.Room(0) && i < |fields|
    modifies stream
    ensures stream.Appended(ok, EncodedArray(fields, i, items))
    decreases fields, 3
  {
    var f, count := fields[i], |items|;
    if count == 0 {
      return true;
    }
    if count > f.arraySize {
      return false;
    }
    if !Packable(f.ltype) {
      ok := EncodeTaggedItems(stream, fields, i, items);
      return;
    }
    ok := stream.EncodeTag(WT_STRING, f.tag);
    if !ok {
      return;
    }
    var size := PackedSize(fields, i, items);
    if size.None? {
      return false;
    }
    ok := EncodePacked(stream, fields, i, items, size.value);
    Regroup(old(stream.out), TagBytes(WT_STRING, f.tag), Delimited(EncodedItems(fields, i, items).value));
  }

  method PackedSize(fields: seq<Field>, i: nat, items: seq<Value>) returns (size: Option<nat>)
    requires i < |fields|
    ensures size.Some? <==> EncodedItems(fields, i, items).Some?
    ensures size.Some? ==> size.value == |EncodedItems(fields, i, items).value|
    decreases fields, 2, 1
  {
    if fields[i].ltype.Fixed32Type? {
      FixedSize(fields, i, items, 4);
      size := Some(4 * |items|);
    } else if fields[i].ltype.Fixed64Type? {
      FixedSize(fields, i, items, 8);
      size := Some(8 * |items|);
    } else {
      var sizestream := new OStream.Sizing();
      var ok := EncodeItems(sizestream, fields, i, items);
      size := if ok then Some(sizestream.bytesWritten) else None;
    }
  }

  method EncodePacked(stream: OStream, fields: seq<Field>, i: nat, items: seq<Value>, size: nat) returns (ok: bool)
    requires stream.Room(0) && i < |fields|
    requires EncodedItems(fields, i, items).Some? && size == |EncodedItems(fields, i, items).value|
    modifies stream
    ensures stream.Appended(ok, DelimitedBody(EncodedItems(fields, i, items)))
    decreases fields, 2, 1
  {
    ok := stream.EncodeVarint(size);
    if !ok {
      return;
    }
    if !stream.writing {
      stream.bytesWritten := stream.bytesWritten + size;
      return true;
    }
    ok := EncodeItems(stream, fields, i, items);
    Regroup(old(stream.out), Varint(size), EncodedItems(fields, i, items).value);
  }

  lemma {:induction false} FixedSize(fields: seq<Field>, i: nat, items: seq<Value>, width: nat)
    requires i < |fields|
    requires if width == 4 then fields[i].ltype.Fixed32Type? else width == 8 && fields[i].ltype.Fixed64Type?
    ensures EncodedItems(fields, i, items).Some? && |EncodedItems(fields, i, items).value| == width * |items|
    decreases items
  {
    if items != [] {
      FixedSize(fields, i, items[1..], width);
    }
  }

  method EncodeItems(stream: OStream, fields: seq<Field>, i: nat, items: seq<Value>) returns (ok: bool)
    requires stream.Room(0) && i < |fields|
    modifies stream
    ensures stream.Appended(ok, EncodedItems(fields, i, items))
    decreases fields, 2, 0
  {
    ok := true;
    ghost var done: Bytes := [];
    JoinAssociates(done, None, EncodedItems(fields, i, items));
    assert items[0..] == items;
    for k := 0 to |items|
      invariant ok && stream.Room(0)
      invariant EncodedItems(fields, i, items) == Join(Some(done), EncodedItems(fields, i, items[k..]))
      invariant stream.maxSize == old(stream.maxSize) && stream.bytesWritten == old(stream.bytesWritten) + |done|
      invariant stream.out == old(stream.out) + if stream.writing then done else []
    {
      ghost var e := EncodedValue(fields, i, items[k]);
      assert items[k..][1..] == items[k + 1..];
      JoinAssociates(done, e, EncodedItems(fields, i, items[k + 1..]));
      ok := EncodeValue(stream, fields, i, items[k]);
      if !ok {
        return;
      }
      Regroup(old(stream.out), done, e.value);
      done := done + e.value;
    }
  }

  method EncodeTaggedItems(stream: OStream, fields: seq<Field>, i: nat, items: seq<Value>) returns (ok: bool)
    requires stream.Room(0) && i < |fields|
    modifies stream
    ensures stream.Appended(ok, TaggedItems(fields, i, items))
    decreases fields, 2
  {
    ok := true;
    ghost var done: Bytes := [];
    JoinAssociates(done, None, TaggedItems(fields, i, items));
    assert items[0..] == items;
    for k := 0 to |items|
      invariant ok && stream.Room(0)
      invariant TaggedItems(fields, i, items) == Join(Some(done), TaggedItems(fields, i, items[k..]))
      invariant stream.maxSize == old(stream.maxSize) && stream.bytesWritten == old(stream.bytesWritten) + |done|
      invariant stream.out == old(stream.out) + if stream.writing then done else []
    {
      ghost var e := TaggedValue(fields, i, items[k]);
      assert items[k..][1..] == items[k + 1..];
      JoinAssociates(done, e, TaggedItems(fields, i, items[k + 1..]));
      ok := EncodeTaggedValue(stream, fields, i, items[k]);
      if !ok {
        return;
      }
      Regroup(old(stream.out), done, e.value);
      done := done + e.value;
    }
  }

  /** pb_get_encoded_size, and what it is for: a buffer is large enough exactly from that size on, and then as much is
      written. */
  method GetEncodedSize(fields: seq<Field>, slots: seq<Slot>) returns (size: Option<nat>)
    ensures size.Some? <==> EncodedFrom(fields, slots, 0).Some?
    ensures size.Some? ==> size.value == |EncodedFrom(fields, slots, 0).value|
  {
    var stream := new OStream.Sizing();
    var ok := Encode(stream, fields, slots);
    size := if ok then Some(stream.bytesWritten) else None;
  }

  method EncodeToBuffer(fields: seq<Field>, slots: seq<Slot>, bufferSize: nat) returns (written: Option<Bytes>)
    ensures written.Some? <==>
              EncodedFrom(fields, slots, 0).Some? && |EncodedFrom(fields, slots, 0).value| <= bufferSize
    ensures written.Some? ==> written == EncodedFrom(fields, slots, 0)
  {
    var stream := new OStream.FromBuffer(bufferSize);
    var ok := Encode(stream, fields, slots);
    if ok {
      assert [] + EncodedFrom(fields, slots, 0).value == EncodedFrom(fields, slots, 0).value;
    }
    written := if ok then Some(stream.out) else None;
  }
}
