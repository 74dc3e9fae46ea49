// The nanopb decoder (nanopb/pb_decode.c): first what it makes of a byte string, then the streams that do it.

module NanopbDecode {
  import opened Bits
  import opened Keys
  import opened Coding
  import opened Varints
  import opened NanopbFields
  import opened NanopbEncode

  // ------------------------------------------------------------------ numbers

  /** The rest of a varint that must fit in 32 bits, from bit position `bitpos` on; more bytes are tolerated if they
      only extend the sign. The position is an 8-bit number. */
  function RestOfVarint32(b: Bytes, result: nat, bitpos: nat): (r: Option<Got<nat>>)
    requires result < TWO_32
    ensures r.Some? ==> |r.value.rest| < |b| && r.value.value < TWO_32
    decreases b
  {
    if b == [] then None
    else
      var sum := AddedOctet(b[0] as nat, result, bitpos);
      var next := NextPosition(bitpos);
      if sum.None? then None
      else if b[0] >= 128 then RestOfVarint32(b[1..], sum.value, next)
      else if Overflows(b[0] as nat, next) then None
      else Some(Got(sum.value, b[1..]))
  }

  function AddedOctet(octet: nat, result: nat, bitpos: nat): (r: Option<nat>)
    requires result < TWO_32
    ensures r.Some? ==> r.value < TWO_32
  {
    var low := octet % 128;
    var signExtension := if bitpos < 63 then 255 else 1;
    if bitpos < 32 then Some(Shifted(result, low, bitpos))
    else if low != 0 && (result < 0x8000_0000 || octet != signExtension) then None
    else Some(result)
  }

  function NextPosition(bitpos: nat): nat {
    (bitpos + 7) % 256
  }

  /** Of the fifth byte only four bits fit. */
  predicate Overflows(octet: nat, next: nat) {
    next == 35 && octet / 16 % 8 != 0
  }

  function Shifted(result: nat, low: nat, bitpos: nat): (r: nat)
    ensures r < TWO_32
  {
    (result + low * Power(bitpos)) % TWO_32
  }

  /** pb_decode_varint32. */
  function DecodedVarint32(b: Bytes): (r: Option<Got<nat>>)
    ensures r.Some? ==> |r.value.rest| < |b| && r.value.value < TWO_32
  {
    RestOfVarint32(b, 0, 0)
  }

  function Modulus(size: nat): (m: nat)
    ensures m >= 256
  {
    if size == 1 then 0x100 else if size == 2 then 0x1_0000 else if size == 4 then TWO_32 else TWO_64
  }

  /** The low bytes of a number as a signed number of that size. */
  function Signed(n: int, size: nat): int {
    var r := n % Modulus(size);
    if 2 * r >= Modulus(size) then r - Modulus(size) else r
  }

  function UnZigZag(n: nat): int {
    if n % 2 == 1 then -(n / 2) - 1 else n / 2
  }

  function FromFixed(b: Bytes): nat {
    if b == [] then 0 else b[0] as nat + 256 * FromFixed(b[1..])
  }

  /** pb_dec_varint: fields below 64 bits take the number as 32 bits first. */
  function SignedField(size: nat, n: nat): Option<int> {
    if !IsIntSize(size) then None
    else
      var value := if size == 8 then Signed(n, 8) else Signed(n, 4);
      if Signed(value, size) == value then Some(value) else None
  }

  function UnsignedField(size: nat, n: nat): Option<int> {
    if IsIntSize(size) && n % Modulus(size) == n then Some(n) else None
  }

  function ZigZagField(size: nat, n: nat): Option<int> {
    var value := UnZigZag(n);
    if IsIntSize(size) && Signed(value, size) == value then Some(value) else None
  }

  function GetFixed(b: Bytes, width: nat): (r: Option<Got<int>>)
    ensures r.Some? ==> |b| == |r.value.rest| + width
  {
    if |b| < width then None else Some(Got(FromFixed(b[..width]), b[width..]))
  }

  function FieldNumber(f: Field, n: nat): Option<int> {
    if f.ltype.VarintType? then SignedField(f.dataSize, n)
    else if f.ltype.UVarintType? then UnsignedField(f.dataSize, n)
    else ZigZagField(f.dataSize, n)
  }

  /** The decoders of the types that can be packed. */
  function GetNumber(f: Field, b: Bytes): (r: Option<Got<int>>)
    ensures r.Some? ==> |r.value.rest| < |b|
  {
    if f.ltype.BoolType? then
      match DecodedVarint32(b)
      case None => None
      case Some(n) => Some(Got(if n.value != 0 then 1 else 0, n.rest))
    else if f.ltype.Fixed32Type? then GetFixed(b, 4)
    else if f.ltype.Fixed64Type? then GetFixed(b, 8)
    else
      match Get64(b)
      case None => None
      case Some(n) =>
        match FieldNumber(f, n.value)
        case None => None
        case Some(value) => Some(Got(value, n.rest))
  }

  /** The next `size` bytes. */
  function Take(b: Bytes, size: nat): (r: Option<Got<Bytes>>)
    ensures r.Some? ==> |r.value.rest| <= |b| && |r.value.value| == size
  {
    if size <= |b| then Some(Got(b[..size], b[size..])) else None
  }

  /** A length and as many bytes. */
  function GetString(b: Bytes): (r: Option<Got<Bytes>>)
    ensures r.Some? ==> |r.value.rest| < |b|
  {
    match DecodedVarint32(b)
    case None => None
    case Some(n) => Take(n.rest, n.value)
  }

  /** pb_dec_bytes, pb_dec_string and pb_dec_fixed_length_bytes, with their limits. */
  function GetBlob(f: Field, b: Bytes): (r: Option<Got<Bytes>>)
    ensures r.Some? ==> |r.value.rest| < |b|
  {
    match DecodedVarint32(b)
    case None => None
    case Some(n) =>
      var limit := if f.ltype.BytesType? then n.value + BYTES_OFFSET else n.value + 1;
      if !f.ltype.FixedLengthBytesType? then if limit > f.dataSize then None else Take(n.rest, n.value)
      else if n.value == 0 then Some(Got(seq(f.dataSize, _ => 0), n.rest))
      else if n.value != f.dataSize then None
      else Take(n.rest, n.value)
  }

  // ------------------------------------------------------------------ messages

  /** What pb_decode_noinit keeps: the message, the required fields seen (by index among them), and how far an array
      without a count has been filled. */
  datatype State = State(slots: seq<Slot>, seen: set<nat>, fixedField: Option<nat>, fixedCount: nat)

  datatype Stored = Stored(slots: seq<Slot>, count: nat)

  const MAX_REQUIRED_FIELDS: nat := 64

  /** The position of the first field with this tag, from `i` on. */
  function IndexOf(fields: seq<Field>, tag: nat, i: nat): (r: Option<nat>)
    ensures r.None? ==> forall j | i <= j < |fields| :: fields[j].tag != tag
    ensures r.Some? ==> i <= r.value < |fields| && fields[r.value].tag == tag
    decreases |fields| - i
  {
    if i >= |fields| then None else if fields[i].tag == tag then Some(i) else IndexOf(fields, tag, i + 1)
  }

  lemma {:induction false} IndexIs(fields: seq<Field>, i: nat, k: nat)
    requires DistinctTags(fields) && k <= i < |fields|
    ensures IndexOf(fields, fields[i].tag, k) == Some(i)
    decreases i - k
  {
    if k < i {
      IndexIs(fields, i, k + 1);
    }
  }

  /** pb_skip_field. */
  function Skipped(wireType: nat, b: Bytes): (r: Option<Bytes>)
    ensures r.Some? ==> |r.value| <= |b|
  {
    if wireType == WT_VARINT then AfterVarint(b)
    else if wireType == WT_64BIT then if |b| < 8 then None else Some(b[8..])
    else if wireType == WT_STRING then
      match GetString(b)
      case None => None
      case Some(s) => Some(s.rest)
    else if wireType == WT_32BIT then if |b| < 4 then None else Some(b[4..])
    else None
  }

  function AfterVarint(b: Bytes): (r: Option<Bytes>)
    ensures r.Some? ==> |r.value| <= |b|
  {
    if b == [] then None else if b[0] >= 128 then AfterVarint(b[1..]) else Some(b[1..])
  }

  /** A new value for field `i`, over the old one. Array entries are initialized first; other submessages were. */
  function GetValue(fields: seq<Field>, i: nat, before: Value, b: Bytes): (r: Option<Got<Value>>)
    requires i < |fields|
    ensures r.Some? ==> |r.value.rest| < |b|
    decreases fields, 0
  {
    var f := fields[i];
    if Packable(f.ltype) then
      match GetNumber(f, b)
      case None => None
      case Some(n) => Some(Got(Int(n.value), n.rest))
    else if f.ltype.SubmessageType? then
      match GetString(b)
      case None => None
      case Some(s) =>
        var slots := if f.htype.Repeated? || f.htype.FixedCount? then Defaults(f.sub) else SlotsOf(before);
        match DecodedInto(f.sub, slots, s.value)
        case None => None
        case Some(m) => Some(Got(Message(m.value), s.rest))
    else
      match GetBlob(f, b)
      case None => None
      case Some(s) => Some(Got(Blob(s.value), s.rest))
  }

  /** The entries of a packed array, as many as there is room for. */
  function GetItems(f: Field, items: seq<Value>, b: Bytes): Option<seq<Value>>
    decreases |b|
  {
    if b == [] then Some(items)
    else if |items| >= f.arraySize then None
    else
      match GetNumber(f, b)
      case None => None
      case Some(n) => GetItems(f, items + [Int(n.value)], n.rest)
  }

  /** The first `n` entries of an array. */
  function Entries(s: Slot, n: nat): seq<Value> {
    if n <= |ItemsIn(s)| then ItemsIn(s)[..n] else ItemsIn(s)
  }

  function WithSlot(slots: seq<Slot>, i: nat, s: Slot): (r: seq<Slot>)
    ensures |r| == |slots|
  {
    if i < |slots| then slots[i := s] else slots
  }

  /** One more entry of an array, or a whole packed array. `count` is how many entries there are when the array does
      not count them itself. */
  function StoreItems(fields: seq<Field>, i: nat, wireType: nat, slots: seq<Slot>, count: nat, b: Bytes)
    : (r: Option<Got<Stored>>)
    requires i < |fields|
    ensures r.Some? ==> |r.value.rest| < |b| && |r.value.value.slots| == |slots|
    decreases fields, 1
  {
    var f, s := fields[i], SlotAt(slots, i);
    var items := if f.htype.FixedCount? then Entries(s, count) else ItemsIn(s);
    if wireType == WT_STRING && Packable(f.ltype) then
      match GetString(b)
      case None => None
      case Some(p) =>
        match GetItems(f, items, p.value)
        case None => None
        case Some(all) => Some(Got(Stored(WithSlot(slots, i, Array(all)), |all|), p.rest))
    else if |items| >= f.arraySize then None
    else
      match GetValue(fields, i, Unset, b)
      case None => None
      case Some(v) => Some(Got(Stored(WithSlot(slots, i, Array(items + [v.value])), |items| + 1), v.rest))
  }

  /** decode_static_field. */
  function StoreField(fields: seq<Field>, i: nat, wireType: nat, slots: seq<Slot>, count: nat, b: Bytes)
    : (r: Option<Got<Stored>>)
    requires i < |fields|
    ensures r.Some? ==> |r.value.rest| < |b| && |r.value.value.slots| == |slots|
    decreases fields, 2
  {
    var f := fields[i];
    if f.htype.Repeated? || f.htype.FixedCount? then StoreItems(fields, i, wireType, slots, count, b)
    else
      match GetValue(fields, i, Before(fields, i, slots), b)
      case None => None
      case Some(v) => Some(Got(Stored(WithValue(f, i, slots, v.value), count), v.rest))
  }

  /** The value that is about to be overwritten: a submessage of a oneof starts anew unless it was there before. */
  function Before(fields: seq<Field>, i: nat, slots: seq<Slot>): Value
    requires i < |fields|
  {
    var f := fields[i];
    if f.htype.Oneof? then
      var u := SlotAt(slots, f.htype.home);
      if f.ltype.SubmessageType? && WhichIn(u) != f.tag then Message(Defaults(f.sub)) else ValueIn(u)
    else
      ValueIn(SlotAt(slots, i))
  }

  function WithValue(f: Field, i: nat, slots: seq<Slot>, v: Value): (r: seq<Slot>)
    ensures |r| == |slots|
  {
    if f.htype.Oneof? then WithSlot(slots, f.htype.home, Union(f.tag, v))
    else if f.htype.Optional? then WithSlot(slots, i, Flagged(true, v))
    else WithSlot(slots, i, Single(v))
  }

  /** Only one array without a count may be incomplete at a time. */
  predicate FixedDone(fields: seq<Field>, st: State) {
    st.fixedField.Some? && st.fixedField.value < |fields| ==> st.fixedCount == fields[st.fixedField.value].arraySize
  }

  function Counting(fields: seq<Field>, i: nat, st: State): Option<State>
    requires i < |fields|
  {
    if !fields[i].htype.FixedCount? || st.fixedField == Some(i) then Some(st)
    else if !FixedDone(fields, st) then None
    else Some(st.(fixedField := Some(i), fixedCount := 0))
  }

  function Seeing(fields: seq<Field>, i: nat, st: State): State
    requires i < |fields|
  {
    var r := RequiredBefore(fields, i);
    if fields[i].htype.Required? && r < MAX_REQUIRED_FIELDS then st.(seen := st.seen + {r}) else st
  }

  /** A field whose tag was read. */
  function StoreNext(fields: seq<Field>, i: nat, wireType: nat, st: State, b: Bytes): (r: Option<Got<State>>)
    requires i < |fields|
    ensures r.Some? ==> |r.value.rest| < |b|
    decreases fields, 3
  {
    match Counting(fields, i, st)
    case None => None
    case Some(counting) =>
      var s := Seeing(fields, i, counting);
      match StoreField(fields, i, wireType, s.slots, s.fixedCount, b)
      case None => None
      case Some(g) =>
        var count := if fields[i].htype.FixedCount? then g.value.count else s.fixedCount;
        Some(Got(s.(slots := g.value.slots, fixedCount := count), g.rest))
  }

  /** The fields up to the end of the input or a zero tag. An unknown field is skipped. In a message without fields the
      terminator of the descriptor answers to tag 0, and swallows a bool. */
  function DecodedFrom(fields: seq<Field>, st: State, b: Bytes): Option<Got<State>>
    decreases fields, 4, |b|
  {
    if b == [] then Some(Got(st, b))
    else
      match DecodedVarint32(b)
      case None => None
      case Some(t) =>
        if t.value == 0 then Some(Got(st, t.rest))
        else if fields == [] && t.value / 8 == 0 then
          match DecodedVarint32(t.rest)
          case None => None
          case Some(n) => DecodedFrom(fields, st, n.rest)
        else
          match IndexOf(fields, t.value / 8, 0)
          case None => (
            match Skipped(t.value % 8, t.rest)
            case None => None
            case Some(rest) => DecodedFrom(fields, st, rest)
          )
          case Some(i) =>
            match StoreNext(fields, i, t.value % 8, st, t.rest)
            case None => None
            case Some(g) => DecodedFrom(fields, g.value, g.rest)
  }

  /** How many required fields are looked after. */
  function RequiredCount(fields: seq<Field>): nat {
    var n := RequiredBefore(fields, |fields|);
    if n > MAX_REQUIRED_FIELDS then MAX_REQUIRED_FIELDS else n
  }

  predicate Complete(fields: seq<Field>, st: State) {
    FixedDone(fields, st) && forall r | 0 <= r < RequiredCount(fields) :: r in st.seen
  }

  function Start(slots: seq<Slot>): State {
    State(slots, {}, None, 0)
  }

  /** pb_decode_noinit. */
  function DecodedInto(fields: seq<Field>, slots: seq<Slot>, b: Bytes): Option<Got<seq<Slot>>>
    decreases fields, 5
  {
    match DecodedFrom(fields, Start(slots), b)
    case None => None
    case Some(g) => if Complete(fields, g.value) then Some(Got(g.value.slots, g.rest)) else None
  }

  /** pb_decode. */
  function Decoded(fields: seq<Field>, b: Bytes): Option<Got<seq<Slot>>> {
    DecodedInto(fields, Defaults(fields), b)
  }

  lemma FirstOctet(octet: nat)
    requires octet < 256
    ensures AddedOctet(octet, 0, 0) == Some(octet % 128) && NextPosition(0) == 7 && !Overflows(octet, 7)
  {
    assert Power(0) == 1;
  }

  lemma OctetRead(whole: Option<Read>, b: Bytes, low: nat, result: nat, unit: nat, i: nat, sum: nat)
    requires b != [] && Continues(whole, ReadVarint(b), result, unit, i) && sum == result + unit * low
    requires b[0] as nat == if b[0] < 128 then low else low + 128
    ensures b[0] >= 128 ==> Continues(whole, ReadVarint(b[1..]), sum, unit * 128, i + 1)
    ensures b[0] < 128 ==> whole == Some(Read(sum, i + 1))
  {
    ReadsOn(whole, b, result, unit, i);
    assert low == if b[0] < 128 then b[0] as nat else b[0] as nat - 128;
  }

  // ------------------------------------------------------------------ the input stream

  /** pb_istream_t over a buffer: what is left to read begins at `pos`. */
  class IStream {
    const data: Bytes
    ghost const end: nat
    var pos: nat
    var bytesLeft: nat

    ghost predicate Valid()
      reads this
    {
      pos + bytesLeft == end <= |data|
    }

    ghost function Rest(): (r: Bytes)
      requires Valid()
      reads this
      ensures |r| == bytesLeft
    {
      data[pos..pos + bytesLeft]
    }

    /** A read took what `g` describes, or failed if there is no such thing. */
    ghost predicate Took<T>(r: Option<T>, g: Option<Got<T>>)
      requires Valid()
      reads this
    {
      r.Some? == g.Some? && (r.Some? ==> r.value == g.value.value && Rest() == g.value.rest)
    }

    constructor FromBuffer(data: Bytes)
      ensures Valid() && Rest() == data
    {
      this.data := data;
      end, pos, bytesLeft := |data|, 0, |data|;
    }

    constructor Part(data: Bytes, pos: nat, size: nat)
      requires pos + size <= |data|
      ensures Valid() && Rest() == data[pos..pos + size] && this.data == data && end == pos + size
    {
      this.data := data;
      end, this.pos, bytesLeft := pos + size, pos, size;
    }

    method ReadByte() returns (r: Option<byte>)
      requires Valid()
      modifies this
      ensures Valid() && (r.None? <==> old(Rest()) == [])
      ensures r.Some? ==> r.value == old(Rest())[0] && Rest() == old(Rest())[1..]
      ensures r.None? ==> Rest() == old(Rest())
    {
      if bytesLeft == 0 {
        return None;
      }
      r := Some(data[pos]);
      pos, bytesLeft := pos + 1, bytesLeft - 1;
    }

    method Read(count: nat) returns (r: Option<Bytes>)
      requires Valid()
      modifies this
      ensures Valid() && Took(r, Take(old(Rest()), count))
    {
      if bytesLeft < count {
        return None;
      }
      assert data[pos..pos + count] == Rest()[..count] && data[pos + count..pos + bytesLeft] == Rest()[count..];
      r := Some(data[pos..pos + count]);
      pos, bytesLeft := pos + count, bytesLeft - count;
    }

    method DecodeVarint32() returns (r: Option<nat>)
      requires Valid()
      modifies this
      ensures Valid() && Took(r, DecodedVarint32(old(Rest())))
    {
      var b := ReadByte();
      if b.None? {
        return None;
      }
      var octet := b.value as nat;
      FirstOctet(octet);
      if octet < 128 {
        return Some(octet);
      }
      var result: nat, bitpos: nat := octet % 128, 7;
      while true
        invariant Valid() && result < TWO_32
        invariant RestOfVarint32(Rest(), result, bitpos) == DecodedVarint32(old(Rest()))
        decreases bytesLeft
      {
        b := ReadByte();
        if b.None? {
          return None;
        }
        octet := b.value as nat;
        var sum := AddOctet(octet, result, bitpos);
        if sum.None? {
          return None;
        }
        result := sum.value;
        bitpos := NextPosition(bitpos);
        if octet < 128 {
          if Overflows(octet, bitpos) {
            return None;
          }
          return Some(result);
        }
      }
    }

    static method AddOctet(octet: nat, result: nat, bitpos: nat) returns (r: Option<nat>)
      requires result < TWO_32
      ensures r == AddedOctet(octet, result, bitpos)
    {
      if bitpos >= 32 {
        var signExtension := if bitpos < 63 then 255 else 1;
        if octet % 128 != 0 && (result < 0x8000_0000 || octet != signExtension) {
          return None;
        }
        return Some(result);
      }
      return Some(Shifted(result, octet % 128, bitpos));
    }

    method DecodeVarint() returns (r: Option<nat>)
      requires Valid()
      modifies this
      ensures Valid() && Took(r, Get64(old(Rest())))
    {
      ghost var whole := old(Rest());
      ghost var p := if |whole| < 10 then whole else whole[..10];
      var result: nat, unit: nat, i: nat := 0, 1, 0;
      while true
        invariant Valid() && i <= 10 && i <= |p| && Rest() == whole[i..]
        invariant Continues(ReadVarint(p), ReadVarint(p[i..]), result, unit, i)
        decreases 10 - i
      {
        if 7 * i >= 64 {
          return None;
        }
        var b := ReadByte();
        if b.None? {
          return None;
        }
        var low := if b.value < 128 then b.value as nat else b.value as nat - 128;
        var sum := result + unit * low;
        assert p[i..][0] == b.value && p[i..][1..] == p[i + 1..];
        OctetRead(ReadVarint(p), p[i..], low, result, unit, i, sum);
        i := i + 1;
        if b.value < 128 {
          return Some(sum % TWO_64);
        }
        result, unit := sum, unit * 128;
      }
    }

    method SkipVarint() returns (ok: bool)
      requires Valid()
      modifies this
      ensures Valid() && ok == AfterVarint(old(Rest())).Some?
      ensures ok ==> Rest() == AfterVarint(old(Rest())).value
    {
      while true
        invariant Valid() && AfterVarint(Rest()) == AfterVarint(old(Rest()))
        decreases bytesLeft
      {
        var b := ReadByte();
        if b.None? {
          return false;
        }
        if b.value < 128 {
          return true;
        }
      }
    }

    /** pb_skip_field. */
    method SkipField(wireType: nat) returns (ok: bool)
      requires Valid()
      modifies this
      ensures Valid() && ok == Skipped(wireType, old(Rest())).Some?
      ensures ok ==> Rest() == Skipped(wireType, old(Rest())).value
    {
      if wireType == WT_VARINT {
        ok := SkipVarint();
      } else if wireType == WT_64BIT {
        var r := Read(8);
        ok := r.Some?;
      } else if wireType == WT_STRING {
        var length := DecodeVarint32();
        if length.None? {
          return false;
        }
        var r := Read(length.value);
        ok := r.Some?;
      } else if wireType == WT_32BIT {
        var r := Read(4);
        ok := r.Some?;
      } else {
        ok := false;
      }
    }

    /** A substream for the next length and bytes. The parent waits behind it until it is closed. */
    method MakeSubstream() returns (substream: IStream?)
      requires Valid()
      modifies this
      ensures substream != null <==> GetString(old(Rest())).Some?
      ensures substream == null ==> Valid()
      ensures substream != null ==>
                fresh(substream) && substream.Valid() && Waits(substream) &&
                GetString(old(Rest())).value == Got(substream.Rest(), data[substream.end..end])
    {
      var size := DecodeVarint32();
      if size.None? || bytesLeft < size.value {
        return null;
      }
      assert Rest()[..size.value] == data[pos..pos + size.value] && Rest()[size.value..] == data[pos + size.value..end];
      substream := new IStream.Part(data, pos, size.value);
      bytesLeft := bytesLeft - size.value;
    }

    ghost predicate Waits(substream: IStream)
      reads this
    {
      substream.data == data && substream.end + bytesLeft == end <= |data|
    }

    method CloseSubstream(substream: IStream)
      requires substream != this && substream.Valid() && Waits(substream)
      modifies this, substream
      ensures Valid() && Rest() == data[substream.end..end]
    {
      if substream.bytesLeft > 0 {
        var _ := substream.Read(substream.bytesLeft);
      }
      pos := substream.pos;
    }
  }

  // ------------------------------------------------------------------ decoding a message

  method DecodeNumber(stream: IStream, f: Field) returns (r: Option<int>)
    requires stream.Valid() && Packable(f.ltype)
    modifies stream
    ensures stream.Valid() && stream.Took(r, GetNumber(f, old(stream.Rest())))
  {
    if f.ltype.BoolType? {
      var n := stream.DecodeVarint32();
      r := if n.None? then None else Some(if n.value != 0 then 1 else 0);
    } else if f.ltype.Fixed32Type? {
      var b := stream.Read(4);
      r := if b.None? then None else Some(FromFixed(b.value));
    } else if f.ltype.Fixed64Type? {
      var b := stream.Read(8);
      r := if b.None? then None else Some(FromFixed(b.value));
    } else {
      var n := stream.DecodeVarint();
      r := if n.None? then None else FieldNumber(f, n.value);
    }
  }

  method DecodeBlob(stream: IStream, f: Field) returns (r: Option<Bytes>)
    requires stream.Valid()
    modifies stream
    ensures stream.Valid() && stream.Took(r, GetBlob(f, old(stream.Rest())))
  {
    var size := stream.DecodeVarint32();
    if size.None? {
      return None;
    }
    if f.ltype.FixedLengthBytesType? {
      if size.value == 0 {
        return Some(seq(f.dataSize, _ => 0));
      }
      if size.value != f.dataSize {
        return None;
      }
    } else {
      var allocSize := if f.ltype.BytesType? then size.value + BYTES_OFFSET else size.value + 1;
      if allocSize > f.dataSize {
        return None;
      }
    }
    r := stream.Read(size.value);
  }

  /** The entries of a packed array; too many are an error. */
  method DecodeItems(substream: IStream, f: Field, items: seq<Value>) returns (r: Option<seq<Value>>)
    requires substream.Valid() && Packable(f.ltype)
    modifies substream
    ensures substream.Valid() && r == GetItems(f, items, old(substream.Rest()))
  {
    var all := items;
    var status := true;
    while substream.bytesLeft > 0 && |all| < f.arraySize
      invariant substream.Valid() && GetItems(f, all, substream.Rest()) == GetItems(f, items, old(substream.Rest()))
      decreases substream.bytesLeft
    {
      var n := DecodeNumber(substream, f);
      if n.None? {
        status := false;
        break;
      }
      all := all + [Int(n.value)];
    }
    if substream.bytesLeft != 0 || !status {
      return None;
    }
    return Some(all);
  }

  method DecodeValue(stream: IStream, fields: seq<Field>, i: nat, before: Value) returns (r: Option<Value>)
    requires stream.Valid() && Descriptor(fields) && i < |fields|
    modifies stream
    ensures stream.Valid() && stream.Took(r, GetValue(fields, i, before, old(stream.Rest())))
    decreases fields, 0
  {
    var f := fields[i];
    if Packable(f.ltype) {
      var n := DecodeNumber(stream, f);
      return if n.None? then None else Some(Int(n.value));
    }
    if !f.ltype.SubmessageType? {
      var b := DecodeBlob(stream, f);
      return if b.None? then None else Some(Blob(b.value));
    }
    var substream := stream.MakeSubstream();
    if substream == null {
      return None;
    }
    var slots := if f.htype.Repeated? || f.htype.FixedCount? then Defaults(f.sub) else SlotsOf(before);
    assert f in fields;
    var m := DecodeNoInit(substream, f.sub, slots);
    stream.CloseSubstream(substream);
    return if m.None? then None else Some(Message(m.value));
  }

  method DecodeArray(stream: IStream, fields: seq<Field>, i: nat, wireType: nat, slots: seq<Slot>, count: nat)
    returns (r: Option<Stored>)
    requires stream.Valid() && Descriptor(fields) && i < |fields|
    modifies stream
    ensures stream.Valid() && stream.Took(r, StoreItems(fields, i, wireType, slots, count, old(stream.Rest())))
    decreases fields, 1
  {
    var f, s := fields[i], SlotAt(slots, i);
    var items := if f.htype.FixedCount? then Entries(s, count) else ItemsIn(s);
    if wireType == WT_STRING && Packable(f.ltype) {
      var substream := stream.MakeSubstream();
      if substream == null {
        return None;
      }
      var all := DecodeItems(substream, f, items);
      stream.CloseSubstream(substream);
      return if all.None? then None else Some(Stored(WithSlot(slots, i, Array(all.value)), |all.value|));
    }
    if |items| >= f.arraySize {
      return None;
    }
    var v := DecodeValue(stream, fields, i, Unset);
    return if v.None? then None else Some(Stored(WithSlot(slots, i, Array(items + [v.value])), |items| + 1));
  }

  method DecodeStaticField(stream: IStream, fields: seq<Field>, i: nat, wireType: nat, slots: seq<Slot>, count: nat)
    returns (r: Option<Stored>)
    requires stream.Valid() && Descriptor(fields) && i < |fields|
    modifies stream
    ensures stream.Valid() && stream.Took(r, StoreField(fields, i, wireType, slots, count, old(stream.Rest())))
    decreases fields, 2
  {
    var f := fields[i];
    if f.htype.Repeated? || f.htype.FixedCount? {
      r := DecodeArray(stream, fields, i, wireType, slots, count);
      return;
    }
    var v := DecodeValue(stream, fields, i, Before(fields, i, slots));
    return if v.None? then None else Some(Stored(WithValue(f, i, slots, v.value), count));
  }

  /** What pb_decode_noinit keeps while it runs. */
  datatype Progress = Progress(slots: seq<Slot>, fixedField: Option<nat>, fixedCount: nat, fieldsSeen: seq<nat>)

  ghost predicate Tracks(fields: seq<Field>, p: Progress, st: State) {
    p.slots == st.slots && p.fixedField == st.fixedField && p.fixedCount == st.fixedCount &&
    Marks(p.fieldsSeen, st.seen) &&
    forall r | r in st.seen :: r < RequiredBefore(fields, |fields|)
  }

  /** A field the iterator has found; `index` is its number among the required fields. */
  method DecodeFound(stream: IStream, fields: seq<Field>, i: nat, index: nat, wireType: nat, p: Progress,
                     ghost st: State)
    returns (r: Option<Progress>)
    requires stream.Valid() && Descriptor(fields) && i < |fields| && index == RequiredBefore(fields, i) &&
             Tracks(fields, p, st)
    modifies stream
    ensures stream.Valid()
    ensures var g := StoreNext(fields, i, wireType, st, old(stream.Rest()));
      r.Some? == g.Some? && (r.Some? ==> Tracks(fields, r.value, g.value.value) && stream.Rest() == g.value.rest)
    decreases fields, 3
  {
    var f := fields[i];
    var next := p;
    if f.htype.FixedCount? && p.fixedField != Some(i) {
      if p.fixedField.Some? && p.fixedField.value < |fields| && p.fixedCount != fields[p.fixedField.value].arraySize {
        return None;
      }
      next := next.(fixedField := Some(i), fixedCount := 0);
    }
    ghost var counting := Counting(fields, i, st).value;
    if f.htype.Required? && index < MAX_REQUIRED_FIELDS {
      var marked := Mark(next.fieldsSeen, index, counting.seen);
      next := next.(fieldsSeen := marked);
      RequiredGrows(fields, i, |fields|);
    }
    assert Tracks(fields, next, Seeing(fields, i, counting));
    var stored := DecodeStaticField(stream, fields, i, wireType, next.slots, next.fixedCount);
    if stored.None? {
      return None;
    }
    next := next.(slots := stored.value.slots);
    if f.htype.FixedCount? {
      next := next.(fixedCount := stored.value.count);
    }
    return Some(next);
  }

  // ------------------------------------------------------------------ required fields

  /** One word of the bitmap of required fields has the bits of those from `base` on. */
  ghost predicate WordMarks(word: nat, seen: set<nat>, base: nat) {
    word < Power(32) && forall j {:trigger HasBit(word, j)} | 0 <= j < 32 :: HasBit(word, j) <==> base + j in seen
  }

  ghost predicate Marks(fieldsSeen: seq<nat>, seen: set<nat>) {
    |fieldsSeen| == 2 && WordMarks(fieldsSeen[0], seen, 0) && WordMarks(fieldsSeen[1], seen, 32)
  }

  lemma MarkWord(word: nat, seen: set<nat>, base: nat, j: nat)
    requires WordMarks(word, seen, base) && j < 32
    ensures WordMarks(WithBit(word, j, 32), seen + {base + j}, base)
  {
    forall k | 0 <= k < 32
      ensures HasBit(WithBit(word, j, 32), k) <==> base + k in seen + {base + j}
    {
      WithBitHas(word, j, 32, k);
    }
  }

  method Mark(fieldsSeen: seq<nat>, index: nat, ghost seen: set<nat>) returns (marked: seq<nat>)
    requires Marks(fieldsSeen, seen) && index < MAX_REQUIRED_FIELDS
    ensures Marks(marked, seen + {index})
  {
    var word := index / 32;
    MarkWord(fieldsSeen[word], seen, 32 * word, index % 32);
    marked := fieldsSeen[word := WithBit(fieldsSeen[word], index % 32, 32)];
  }

  lemma {:induction false} RequiredGrows(fields: seq<Field>, i: nat, k: nat)
    requires i < k <= |fields| && fields[i].htype.Required?
    ensures RequiredBefore(fields, i) < RequiredBefore(fields, k)
    decreases k
  {
    if i + 1 < k {
      RequiredGrows(fields, i, k - 1);
    }
  }

  /** The number of required fields, counted by moving the iterator to the end of the descriptor from wherever it is. */
  method CountRequired(iter: FieldIter) returns (count: nat)
    requires iter.Valid()
    modifies iter
    ensures iter.Valid() && count == RequiredBefore(iter.fields, |iter.fields|)
  {
    count := iter.requiredFieldIndex;
    var last := iter.pos;
    var more := iter.Next();
    while more
      invariant iter.Valid() && (if more then iter.pos == last + 1 else last + 1 >= |iter.fields|)
      invariant last <= |iter.fields| && (iter.fields != [] ==> last < |iter.fields|)
      invariant count == RequiredBefore(iter.fields, last)
      decreases |iter.fields| - last
    {
      count := iter.requiredFieldIndex;
      last := iter.pos;
      more := iter.Next();
    }
    if iter.fields != [] && iter.fields[last].htype.Required? {
      count := count + 1;
    }
  }

  /** The words that must be all ones, and then the bits of the last one. */
  method AllSeen(fieldsSeen: seq<nat>, count: nat, ghost seen: set<nat>) returns (all: bool)
    requires Marks(fieldsSeen, seen) && count <= MAX_REQUIRED_FIELDS
    requires forall r | r in seen :: r < count || count == MAX_REQUIRED_FIELDS
    ensures all <==> forall r | 0 <= r < count :: r in seen
  {
    var allbits := Power(32) - 1;
    all := true;
    for i := 0 to count / 32
      invariant all && forall r | 0 <= r < 32 * i :: r in seen
    {
      WordSeen(fieldsSeen[i], seen, 32 * i, 32);
      if fieldsSeen[i] != allbits {
        return false;
      }
    }
    var rest := count % 32;
    if rest != 0 {
      WordSeen(fieldsSeen[count / 32], seen, count - rest, rest);
      ShiftOnes(32, 32 - rest);
      if fieldsSeen[count / 32] != ShiftRight(allbits, 32 - rest) {
        return false;
      }
    }
  }

  lemma WordSeen(word: nat, seen: set<nat>, base: nat, n: nat)
    requires WordMarks(word, seen, base) && n <= 32 && forall r | base + n <= r < base + 32 :: r !in seen
    ensures word == Power(n) - 1 <==> forall r | base <= r < base + n :: r in seen
  {
    AllBelow(word, 32, n);
    if AllSet(word, n) {
      forall r | base <= r < base + n
        ensures r in seen
      {
        assert HasBit(word, r - base);
      }
    } else {
      var j :| 0 <= j < n && !HasBit(word, j);
      assert base + j !in seen;
    }
  }

  // ------------------------------------------------------------------ the decoder

  /** All fields, with one iterator that goes on searching from where the last field was found. */
  method DecodeFields(stream: IStream, iter: FieldIter, slots: seq<Slot>) returns (r: Option<Progress>)
    requires stream.Valid() && iter.Valid() && Descriptor(iter.fields)
    modifies stream, iter
    ensures stream.Valid() && iter.Valid()
    ensures var g := DecodedFrom(iter.fields, Start(slots), old(stream.Rest()));
      r.Some? == g.Some? && (r.Some? ==> Tracks(iter.fields, r.value, g.value.value) && stream.Rest() == g.value.rest)
    decreases iter.fields, 4
  {
    var fields := iter.fields;
    var p := Progress(slots, None, 0, [0, 0]);
    ghost var st := Start(slots);
    NothingSeen();
    while stream.bytesLeft > 0
      invariant stream.Valid() && iter.Valid() && Tracks(fields, p, st)
      invariant DecodedFrom(fields, st, stream.Rest()) == DecodedFrom(fields, Start(slots), old(stream.Rest()))
      decreases stream.bytesLeft
    {
      var t := stream.DecodeVarint32();
      if t.None? {
        return None;
      }
      if t.value == 0 {
        return Some(p);
      }
      var tag, wireType := t.value / 8, t.value % 8;
      var found := iter.Find(tag);
      if !found {
        var ok := stream.SkipField(wireType);
        if !ok {
          return None;
        }
      } else if fields == [] {
        var octet := stream.DecodeVarint32();
        if octet.None? {
          return None;
        }
      } else {
        IndexIs(fields, iter.pos, 0);
        ghost var g := StoreNext(fields, iter.pos, wireType, st, stream.Rest());
        var next := DecodeFound(stream, fields, iter.pos, iter.requiredFieldIndex, wireType, p, st);
        if next.None? {
          return None;
        }
        p, st := next.value, g.value.value;
      }
    }
    return Some(p);
  }

  lemma NothingSeen()
    ensures Marks([0, 0], {})
  {
    forall j | 0 <= j < 32
      ensures !HasBit(0, j)
    {
      NoBitOfZero(j);
    }
  }

  lemma {:induction false} NoBitOfZero(j: nat)
    ensures !HasBit(0, j)
  {
    if j > 0 {
      NoBitOfZero(j - 1);
    }
  }

  /** pb_decode_noinit. */
  method DecodeNoInit(stream: IStream, fields: seq<Field>, slots: seq<Slot>) returns (r: Option<seq<Slot>>)
    requires stream.Valid() && Descriptor(fields)
    modifies stream
    ensures stream.Valid() && stream.Took(r, DecodedInto(fields, slots, old(stream.Rest())))
    decreases fields, 5
  {
    var iter := new FieldIter.Begin(fields);
    var p := DecodeFields(stream, iter, slots);
    if p.None? {
      return None;
    }
    ghost var st := DecodedFrom(fields, Start(slots), old(stream.Rest())).value.value;
    if p.value.fixedField.Some? && p.value.fixedField.value < |fields| &&
       p.value.fixedCount != fields[p.value.fixedField.value].arraySize {
      return None;
    }
    var count := CountRequired(iter);
    if count > MAX_REQUIRED_FIELDS {
      count := MAX_REQUIRED_FIELDS;
    }
    var all := AllSeen(p.value.fieldsSeen, count, st.seen);
    return if all then Some(p.value.slots) else None;
  }

  /** pb_decode: the message is set to its defaults first. */
  method Decode(stream: IStream, fields: seq<Field>) returns (r: Option<seq<Slot>>)
    requires stream.Valid() && Descriptor(fields)
    modifies stream
    ensures stream.Valid() && stream.Took(r, Decoded(fields, old(stream.Rest())))
  {
    r := DecodeNoInit(stream, fields, Defaults(fields));
  }
}
