// Field descriptors of nanopb, the messages they describe, and the cyclic field iterator (nanopb/pb.h, pb_common.c).

module NanopbFields {
  import opened Keys

  datatype LType =
    | BoolType | VarintType | UVarintType | SVarintType | Fixed32Type | Fixed64Type
    | BytesType | StringType | SubmessageType | FixedLengthBytesType

  /** Repetition rules. Singular is an optional field without a has_ flag (proto3), FixedCount an array without a
      count; `home` is the first member of a oneof, where the union is kept. */
  datatype HType = Required | Optional | Singular | Repeated | FixedCount | Oneof(home: nat)

  /** A static field. `initial` is its default value, if it has one, and `sub` the fields of a submessage. */
  datatype Field = Field(tag: nat, ltype: LType, htype: HType, dataSize: nat, arraySize: nat, initial: Option<Value>,
                         sub: seq<Field>)

  datatype Value = Unset | Int(n: int) | Blob(bytes: Bytes) | Message(slots: seq<Slot>)

  /** What a message struct holds for one field. An array is its first `count` entries; the members of a oneof after
      the first share the slot of the first. */
  datatype Slot = Single(value: Value) | Flagged(has: bool, value: Value) | Array(items: seq<Value>)
                | Union(which: nat, value: Value) | Shared

  function Num(v: Value): int {
    if v.Int? then v.n else 0
  }

  function BytesOf(v: Value): Bytes {
    if v.Blob? then v.bytes else []
  }

  function SlotsOf(v: Value): seq<Slot> {
    if v.Message? then v.slots else []
  }

  function SlotAt(slots: seq<Slot>, i: nat): Slot {
    if i < |slots| then slots[i] else Shared
  }

  function ValueIn(s: Slot): Value {
    if s.Single? || s.Flagged? || s.Union? then s.value else Unset
  }

  function ItemsIn(s: Slot): seq<Value> {
    if s.Array? then s.items else []
  }

  predicate HasIn(s: Slot) {
    s.Flagged? && s.has
  }

  function WhichIn(s: Slot): nat {
    if s.Union? then s.which else 0
  }

  predicate Packable(t: LType) {
    t.BoolType? || t.VarintType? || t.UVarintType? || t.SVarintType? || t.Fixed32Type? || t.Fixed64Type?
  }

  predicate DistinctTags(fields: seq<Field>) {
    forall i, j | 0 <= i < j < |fields| :: fields[i].tag != fields[j].tag
  }

  /** What every descriptor satisfies: the fields of a message have tags of their own, and zero marks their end. */
  predicate Descriptor(fields: seq<Field>) {
    DistinctTags(fields) && forall f | f in fields :: f.tag > 0 && (f.ltype.SubmessageType? ==> Descriptor(f.sub))
  }

  // ------------------------------------------------------------------ defaults

  function Zero(f: Field): Value {
    match f.ltype
    case BytesType => Blob([])
    case StringType => Blob([])
    case FixedLengthBytesType => Blob(seq(f.dataSize, _ => 0))
    case _ => Int(0)
  }

  /** pb_field_set_to_default for the value of field `i`. */
  function DefaultValue(fields: seq<Field>, i: nat): Value
    requires i < |fields|
    decreases fields, 0
  {
    var f := fields[i];
    if f.ltype.SubmessageType? then Message(Defaults(f.sub))
    else if f.initial.Some? then f.initial.value
    else Zero(f)
  }

  function DefaultSlot(fields: seq<Field>, i: nat): Slot
    requires i < |fields|
    decreases fields, 1
  {
    match fields[i].htype
    case Required => Single(DefaultValue(fields, i))
    case Singular => Single(DefaultValue(fields, i))
    case Optional => Flagged(false, DefaultValue(fields, i))
    case Repeated => Array([])
    case FixedCount => Array([])
    case Oneof(home) => if home == i then Union(0, Unset) else Shared
  }

  /** pb_message_set_to_defaults. Array entries and the union of a oneof are left uninitialized. */
  function Defaults(fields: seq<Field>): (slots: seq<Slot>)
    ensures |slots| == |fields|
    decreases fields, 2
  {
    seq(|fields|, i requires 0 <= i < |fields| => DefaultSlot(fields, i))
  }

  // ------------------------------------------------------------------ proto3 default values

  /** A string ends at its terminator, or fills its buffer. */
  function CString(b: Bytes, max: nat): Bytes {
    if b == [] || max == 0 || b[0] == 0 then [] else [b[0]] + CString(b[1..], max - 1)
  }

  /** pb_check_proto3_default_value for a field without has_ flag or count. */
  predicate IsZero(fields: seq<Field>, i: nat, v: Value)
    requires i < |fields|
    decreases fields, 0
  {
    var f := fields[i];
    match f.ltype
    case BytesType => BytesOf(v) == []
    case StringType => CString(BytesOf(v), f.dataSize) == []
    case FixedLengthBytesType => f.dataSize == 0
    case SubmessageType => AllDefault(f.sub, SlotsOf(v), 0)
    case _ => Num(v) == 0
  }

  /** pb_check_proto3_default_value for any field. */
  predicate IsDefault(fields: seq<Field>, slots: seq<Slot>, i: nat)
    requires i < |fields|
    decreases fields, 1
  {
    match fields[i].htype
    case Required => false
    case Repeated => ItemsIn(SlotAt(slots, i)) == []
    case FixedCount => false
    case Oneof(home) => WhichIn(SlotAt(slots, home)) == 0
    case Optional => !HasIn(SlotAt(slots, i))
    case Singular => IsZero(fields, i, ValueIn(SlotAt(slots, i)))
  }

  predicate AllDefault(fields: seq<Field>, slots: seq<Slot>, i: nat)
    decreases fields, 2, |fields| - i
  {
    i >= |fields| || (IsDefault(fields, slots, i) && AllDefault(fields, slots, i + 1))
  }

  // ------------------------------------------------------------------ the field iterator

  function RequiredBefore(fields: seq<Field>, i: nat): nat
    requires i <= |fields|
    decreases i
  {
    if i == 0 then 0 else RequiredBefore(fields, i - 1) + if fields[i - 1].htype.Required? then 1 else 0
  }

  ghost predicate HasTag(fields: seq<Field>, tag: nat) {
    exists i :: 0 <= i < |fields| && fields[i].tag == tag
  }

  /** pb_field_iter_t over the fields of a message; the terminator after them is not one. */
  class FieldIter {
    const fields: seq<Field>
    var pos: nat
    var requiredFieldIndex: nat

    ghost predicate Valid()
      reads this
    {
      (if fields == [] then pos == 0 else pos < |fields|) && requiredFieldIndex == RequiredBefore(fields, pos)
    }

    constructor Begin(fields: seq<Field>)
      ensures Valid() && this.fields == fields && pos == 0
    {
      this.fields := fields;
      pos, requiredFieldIndex := 0, 0;
    }

    /** False when it wraps around. */
    method Next() returns (more: bool)
      requires Valid()
      modifies this
      ensures Valid() && more == (old(pos) + 1 < |fields|) && pos == if more then old(pos) + 1 else 0
    {
      if fields == [] {
        return false;
      }
      var prev := pos;
      pos := pos + 1;
      if pos == |fields| {
        pos, requiredFieldIndex := 0, 0;
        return false;
      }
      if fields[prev].htype.Required? {
        requiredFieldIndex := requiredFieldIndex + 1;
      }
      return true;
    }

    /** The search starts where the iterator is and goes around once. Only in an empty message does tag 0 match, the
        tag of the terminator. */
    method Find(tag: nat) returns (found: bool)
      requires Valid()
      modifies this
      ensures Valid()
      ensures fields != [] ==> found == HasTag(fields, tag)
      ensures fields != [] && found ==> fields[pos].tag == tag
      ensures fields == [] ==> found == (tag == 0)
      ensures !found ==> pos == old(pos)
    {
      if fields == [] {
        return tag == 0;
      }
      var start := pos;
      ghost var steps := 0;
      while true
        invariant Valid() && 0 <= steps <= |fields| - 1
        invariant pos == if start + steps < |fields| then start + steps else start + steps - |fields|
        invariant forall i | 0 <= i < |fields| && fields[i].tag == tag :: !Passed(start, steps, |fields|, i)
        decreases |fields| - steps
      {
        if fields[pos].tag == tag {
          return true;
        }
        var _ := Next();
        if pos == start {
          return false;
        }
        steps := steps + 1;
      }
    }
  }

  /** The positions a search from `start` has left behind after some steps. */
  predicate Passed(start: nat, steps: nat, n: nat, i: nat) {
    start <= i < start + steps || i < start + steps - n
  }
}
