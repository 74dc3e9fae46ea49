// What the nanopb decoder refuses: messages without a required field, and arrays without a count that are too short
// (nanopb/pb_decode.c).

module NanopbRefusals {
  import opened Keys
  import opened Coding
  import opened Varints
  import opened NanopbFields
  import opened NanopbEncode
  import opened NanopbDecode
  import opened NanopbRoundTrip

  /** No bytes at all are a message exactly if no field is required. */
  lemma EmptyInput(fields: seq<Field>)
    ensures Decoded(fields, []) ==
            if exists f :: f in fields && f.htype.Required? then None else Some(Got(Defaults(fields), []))
  {
    NothingLeft(fields, Start(Defaults(fields)));
    if f :| f in fields && f.htype.Required? {
      var i :| 0 <= i < |fields| && fields[i] == f;
      RanksGrow(fields, i, |fields|);
      assert 0 !in Start(Defaults(fields)).seen;
    } else {
      NoRanks(fields, |fields|);
    }
  }

  lemma {:induction false} NoRanks(fields: seq<Field>, i: nat)
    requires i <= |fields| && forall f | f in fields :: !f.htype.Required?
    ensures RequiredBefore(fields, i) == 0
    decreases i
  {
    if i > 0 {
      NoRanks(fields, i - 1);
    }
  }

  /** What the encoder writes from field `i` on, with `part` in place of field `k`. */
  function EncodedWith(fields: seq<Field>, slots: seq<Slot>, i: nat, k: nat, part: Bytes): Option<Bytes>
    decreases |fields| - i
  {
    if i >= |fields| then Some([])
    else
      Join(if i == k then Some(part) else EncodedField(fields, slots, i), EncodedWith(fields, slots, i + 1, k, part))
  }

  lemma {:induction false} WithAfter(fields: seq<Field>, slots: seq<Slot>, i: nat, k: nat, part: Bytes)
    requires k < i
    ensures EncodedWith(fields, slots, i, k, part) == EncodedFrom(fields, slots, i)
    decreases |fields| - i
  {
    if i < |fields| {
      WithAfter(fields, slots, i + 1, k, part);
    }
  }

  lemma {:induction false} WithEncodes(fields: seq<Field>, slots: seq<Slot>, i: nat, k: nat, part: Bytes)
    requires WellFormed(fields) && MessageOk(fields, slots)
    ensures EncodedWith(fields, slots, i, k, part).Some?
    decreases |fields| - i
  {
    if i < |fields| {
      assert SlotOk(fields, i, slots[i]) && FieldOk(fields, i);
      FieldEncodes(fields, slots, i);
      WithEncodes(fields, slots, i + 1, k, part);
    }
  }

  /** The decoder comes to the part that is different. */
  lemma {:induction false} UpTo(fields: seq<Field>, slots: seq<Slot>, i: nat, k: nat, part: Bytes, st: State)
    returns (next: State)
    requires WellFormed(fields) && MessageOk(fields, slots) && i <= k < |fields|
    requires EncodedWith(fields, slots, i, k, part).Some? && |EncodedWith(fields, slots, i, k, part).value| < TWO_32
    requires Reached(fields, slots, st.slots, i, k) && Settled(fields, st, i) && SeenBefore(fields, st, i, k)
    ensures EncodedFrom(fields, slots, k + 1).Some? && |part| + |EncodedFrom(fields, slots, k + 1).value| < TWO_32
    ensures DecodedFrom(fields, st, EncodedWith(fields, slots, i, k, part).value) ==
            DecodedFrom(fields, next, part + EncodedFrom(fields, slots, k + 1).value)
    ensures Reached(fields, slots, next.slots, k, k) && Settled(fields, next, k) && SeenBefore(fields, next, k, k)
    decreases k - i
  {
    hide Reached, SeenBefore, DecodedFrom, EncodedField, WellFormed, MessageOk;
    if i == k {
      next := st;
      WithAfter(fields, slots, k + 1, k, part);
    } else {
      var rest := EncodedWith(fields, slots, i + 1, k, part).value;
      next := FieldBack(fields, slots, i, st, rest, k);
      next := UpTo(fields, slots, i + 1, k, part, next);
    }
  }

  /** The test at the end, all fields but `k` having been read and no array being incomplete. */
  lemma LastTest(fields: seq<Field>, k: nat, last: State)
    requires k < |fields| && Settled(fields, last, |fields|) && SeenBefore(fields, last, |fields|, k)
    ensures Complete(fields, last) <==> !(fields[k].htype.Required? && RequiredBefore(fields, k) < 64)
  {
    if fields[k].htype.Required? {
      RanksGrow(fields, k, |fields|);
      assert RankOf(fields, k, RequiredBefore(fields, k));
    }
  }

  /** The message without field `k`: the decoder refuses it exactly if that field is one of the first 64 required
      ones. Otherwise every other field comes back. */
  lemma LeftOut(fields: seq<Field>, slots: seq<Slot>, k: nat)
    requires WellFormed(fields) && MessageOk(fields, slots) && k < |fields|
    ensures EncodedWith(fields, slots, 0, k, []).Some?
    ensures var e := EncodedWith(fields, slots, 0, k, []).value;
      |e| < TWO_32 ==>
        (Decoded(fields, e).None? <==> fields[k].htype.Required? && RequiredBefore(fields, k) < 64) &&
        (Decoded(fields, e).Some? ==>
           forall j | 0 <= j < |fields| && j != k && !fields[j].htype.Oneof? ::
             SameSlot(fields, j, slots[j], SlotAt(Decoded(fields, e).value.value, j)))
  {
    hide SeenBefore, DecodedFrom, EncodedField, WellFormed, MessageOk, SameSlot;
    WithEncodes(fields, slots, 0, k, []);
    var e := EncodedWith(fields, slots, 0, k, []).value;
    if |e| < TWO_32 {
      MessageLength(fields, slots);
      StartReached(fields, slots, k);
      var next := UpTo(fields, slots, 0, k, [], Start(Defaults(fields)));
      var rest := EncodedFrom(fields, slots, k + 1).value;
      assert [] + rest == rest;
      var last := WithoutField(fields, slots, k, next);
      LastTest(fields, k, last);
      forall j | 0 <= j < |fields| && j != k && !fields[j].htype.Oneof?
        ensures SameSlot(fields, j, slots[j], last.slots[j])
      {
        assert SlotReached(fields, slots, last.slots, |fields|, j, k);
      }
    }
  }

  lemma StartReached(fields: seq<Field>, slots: seq<Slot>, skip: nat)
    requires |fields| == |slots|
    ensures var st := Start(Defaults(fields));
      Reached(fields, slots, st.slots, 0, skip) && Settled(fields, st, 0) && SeenBefore(fields, st, 0, skip)
  {
    DefaultsReached(fields, slots, skip);
  }

  /** Nothing in place of field `k`. */
  lemma WithoutField(fields: seq<Field>, slots: seq<Slot>, k: nat, st: State) returns (last: State)
    requires WellFormed(fields) && MessageOk(fields, slots) && k < |fields|
    requires EncodedFrom(fields, slots, k + 1).Some? && |EncodedFrom(fields, slots, k + 1).value| < TWO_32
    requires Reached(fields, slots, st.slots, k, k) && Settled(fields, st, k) && SeenBefore(fields, st, k, k)
    ensures DecodedFrom(fields, st, EncodedFrom(fields, slots, k + 1).value) == Some(Got(last, []))
    ensures Reached(fields, slots, last.slots, |fields|, k) && Settled(fields, last, |fields|)
    ensures SeenBefore(fields, last, |fields|, k)
  {
    AbsentReached(fields, slots, st.slots, k, k);
    SkippedUnseen(fields, st, k);
    last := FromBack(fields, slots, k + 1, st, k);
  }

  // ------------------------------------------------------------------ arrays without a count

  /** A tag whose field cannot be stored. */
  lemma TagFails(fields: seq<Field>, i: nat, wireType: nat, st: State, b: Bytes)
    requires WellFormed(fields) && i < |fields| && wireType < 8 && StoreNext(fields, i, wireType, st, b).None?
    ensures DecodedFrom(fields, st, TagBytes(wireType, fields[i].tag) + b) == None
  {
    var t := fields[i].tag * 8 + wireType;
    assert FieldOk(fields, i);
    Varint32Back(t, b);
    IndexIs(fields, i, 0);
    assert t / 8 == fields[i].tag && t % 8 == wireType;
    assert TagBytes(wireType, fields[i].tag) + b != [];
  }

  /** A written array starts with a tag of its field. */
  lemma ArrayStarts(fields: seq<Field>, i: nat, items: seq<Value>, rest: Bytes) returns (wireType: nat, b: Bytes)
    requires i < |fields| && items != [] && EncodedArray(fields, i, items).Some?
    ensures wireType < 8 && EncodedArray(fields, i, items).value + rest == TagBytes(wireType, fields[i].tag) + b
  {
    var f := fields[i];
    if Packable(f.ltype) {
      var body := EncodedItems(fields, i, items).value;
      wireType, b := WT_STRING, Delimited(body) + rest;
      Regroup(TagBytes(WT_STRING, f.tag), Delimited(body), rest);
    } else {
      JoinParts(fields, i, items);
      var first, later := EncodedValue(fields, i, items[0]).value, TaggedItems(fields, i, items[1..]).value;
      wireType, b := WireType(f.ltype), first + (later + rest);
      Regroup(TaggedValue(fields, i, items[0]).value, later, rest);
      Regroup(FieldTag(f), first, later + rest);
    }
  }

  /** While an array is incomplete no other can be started. */
  lemma OtherArrayFails(fields: seq<Field>, i: nat, items: seq<Value>, st: State, rest: Bytes)
    requires WellFormed(fields) && i < |fields| && fields[i].htype.FixedCount? && items != []
    requires EncodedArray(fields, i, items).Some? && !FixedDone(fields, st) && st.fixedField != Some(i)
    ensures DecodedFrom(fields, st, EncodedArray(fields, i, items).value + rest) == None
  {
    hide DecodedFrom, WellFormed, EncodedArray;
    var wireType, b := ArrayStarts(fields, i, items, rest);
    assert Counting(fields, i, st) == None;
    TagFails(fields, i, wireType, st, b);
  }

  /** An array that is incomplete stays so: the rest of the message fails, or ends with it. */
  lemma {:induction false} StaysIncomplete(fields: seq<Field>, slots: seq<Slot>, i: nat, st: State, k: nat)
    requires WellFormed(fields) && MessageOk(fields, slots) && k < i <= |fields|
    requires EncodedFrom(fields, slots, i).Some? && |EncodedFrom(fields, slots, i).value| < TWO_32
    requires Reached(fields, slots, st.slots, i, k) && SeenBefore(fields, st, i, k)
    requires st.fixedField == Some(k) && !FixedDone(fields, st)
    ensures var r := DecodedFrom(fields, st, EncodedFrom(fields, slots, i).value);
      r.Some? ==> !FixedDone(fields, r.value.value)
    decreases |fields| - i
  {
    hide Reached, SeenBefore, DecodedFrom, EncodedArray, WellFormed, MessageOk;
    if i == |fields| {
      NothingLeft(fields, st);
    } else {
      FromParts(fields, slots, i);
      var rest := EncodedFrom(fields, slots, i + 1).value;
      var items := ItemsIn(SlotAt(slots, i));
      if fields[i].htype.FixedCount? && items != [] {
        OtherArrayFails(fields, i, items, st, rest);
      } else {
        var next := FieldBack(fields, slots, i, st, rest, k);
        StaysIncomplete(fields, slots, i + 1, next, k);
      }
    }
  }

  lemma NothingLeft(fields: seq<Field>, st: State)
    ensures DecodedFrom(fields, st, []) == Some(Got(st, []))
  {
  }

  /** The message with other entries in an array without a count: the decoder refuses it exactly if there are some, but
      not as many as the array holds. */
  lemma OtherItems(fields: seq<Field>, slots: seq<Slot>, k: nat, items: seq<Value>)
    requires WellFormed(fields) && MessageOk(fields, slots) && k < |fields| && fields[k].htype.FixedCount?
    requires ItemsOk(fields, k, items) && |items| <= fields[k].arraySize
    ensures EncodedArray(fields, k, items).Some?
    ensures var e := EncodedWith(fields, slots, 0, k, EncodedArray(fields, k, items).value);
      e.Some? && (|e.value| < TWO_32 ==> (Decoded(fields, e.value).None? <==> 0 < |items| < fields[k].arraySize))
  {
    hide SeenBefore, DecodedFrom, EncodedField, WellFormed, MessageOk, Reached, EncodedArray;
    ArrayEncodes(fields, k, items);
    var part := EncodedArray(fields, k, items).value;
    WithEncodes(fields, slots, 0, k, part);
    if |EncodedWith(fields, slots, 0, k, part).value| < TWO_32 {
      MessageLength(fields, slots);
      StartReached(fields, slots, k);
      var next := UpTo(fields, slots, 0, k, part, Start(Defaults(fields)));
      WithItems(fields, slots, k, items, next);
    }
  }

  lemma MessageLength(fields: seq<Field>, slots: seq<Slot>)
    requires MessageOk(fields, slots)
    ensures |slots| == |fields|
  {
  }

  lemma ArrayEncodes(fields: seq<Field>, k: nat, items: seq<Value>)
    requires WellFormed(fields) && k < |fields| && ItemsOk(fields, k, items) && |items| <= fields[k].arraySize
    ensures EncodedArray(fields, k, items).Some? && (items == [] ==> EncodedArray(fields, k, items).value == [])
  {
    ItemsEncode(fields, k, items);
  }

  lemma WithItems(fields: seq<Field>, slots: seq<Slot>, k: nat, items: seq<Value>, st: State)
    requires WellFormed(fields) && MessageOk(fields, slots) && k < |fields| && fields[k].htype.FixedCount?
    requires ItemsOk(fields, k, items) && |items| <= fields[k].arraySize && EncodedArray(fields, k, items).Some?
    requires EncodedFrom(fields, slots, k + 1).Some? &&
             |EncodedArray(fields, k, items).value| + |EncodedFrom(fields, slots, k + 1).value| < TWO_32
    requires Reached(fields, slots, st.slots, k, k) && Settled(fields, st, k) && SeenBefore(fields, st, k, k)
    ensures var r := DecodedFrom(fields, st, EncodedArray(fields, k, items).value +
                                             EncodedFrom(fields, slots, k + 1).value);
      (r.Some? && Complete(fields, r.value.value)) <==> !(0 < |items| < fields[k].arraySize)
  {
    hide DecodedFrom, WellFormed, MessageOk, EncodedArray, Reached, SeenBefore;
    var rest := EncodedFrom(fields, slots, k + 1).value;
    if items == [] {
      ArrayEncodes(fields, k, items);
      assert [] + rest == rest;
      var last := WithoutField(fields, slots, k, st);
      LastTest(fields, k, last);
    } else {
      var more := FillsSlot(fields, slots, k, items, st, rest);
      var next := Filled(fields, k, st, more);
      if |items| == fields[k].arraySize {
        var last := FromBack(fields, slots, k + 1, next, k);
        LastTest(fields, k, last);
      } else {
        StaysIncomplete(fields, slots, k + 1, next, k);
      }
    }
  }

  lemma FillsSlot(fields: seq<Field>, slots: seq<Slot>, k: nat, items: seq<Value>, st: State, rest: Bytes)
    returns (more: seq<Value>)
    requires WellFormed(fields) && MessageOk(fields, slots) && k < |fields| && fields[k].htype.FixedCount?
    requires ItemsOk(fields, k, items) && 0 < |items| <= fields[k].arraySize
    requires EncodedArray(fields, k, items).Some? && |EncodedArray(fields, k, items).value| < TWO_32
    requires Reached(fields, slots, st.slots, k, k) && Settled(fields, st, k) && SeenBefore(fields, st, k, k)
    ensures |st.slots| == |fields| && |more| == |items|
    ensures DecodedFrom(fields, st, EncodedArray(fields, k, items).value + rest) ==
            DecodedFrom(fields, Filled(fields, k, st, more), rest)
    ensures Reached(fields, slots, Filled(fields, k, st, more).slots, k + 1, k)
    ensures SeenBefore(fields, Filled(fields, k, st, more), k + 1, k)
  {
    hide DecodedFrom, EncodedArray, WellFormed, MessageOk;
    assert SlotReached(fields, slots, st.slots, k, k, k);
    more := ItemsFill(fields, k, st, items, rest);
    PresentReached(fields, slots, st.slots, k, Array(more), k);
    SkippedUnseen(fields, st, k);
  }
}
