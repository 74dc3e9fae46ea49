// A known answer of the checksum (util/crc32c.cc).

module Crc32cAnswer {
  import opened Crc32c
  import opened Crc32cRemainder

  // ------------------------------------------------------------------ machine words

  function Sum(a: bv32, b: bv32): bv32 {
    a ^ b
  }

  function Half(v: bv32): bv32 {
    v >> 1
  }

  predicate Low(v: bv32) {
    v & 1 == 1
  }

  predicate Bit(v: bv32, i: nat)
    decreases i
  {
    if i == 0 then Low(v) else Bit(Half(v), i - 1)
  }

  function OfBits(v: bv32, w: nat, at: nat): (s: Word)
    ensures forall i | i in s :: at <= i < at + w
  {
    if w == 0 then {} else (if Low(v) then {at} else {}) + OfBits(Half(v), w - 1, at + 1)
  }

  function OfWord(v: bv32): Word {
    OfBits(v, 32, 0)
  }

  lemma {:induction false} InOfBits(v: bv32, w: nat, at: nat, i: nat)
    ensures i in OfBits(v, w, at) <==> at <= i < at + w && Bit(v, i - at)
    decreases w
  {
    hide Low, Half;
    if w > 0 {
      InOfBits(Half(v), w - 1, at + 1, i);
    }
  }

  lemma LowSum(a: bv32, b: bv32)
    ensures Half(Sum(a, b)) == Sum(Half(a), Half(b)) && (Low(Sum(a, b)) <==> !(Low(a) <==> Low(b)))
  {
  }

  lemma {:induction false} SumBit(a: bv32, b: bv32, i: nat)
    ensures Bit(Sum(a, b), i) <==> !(Bit(a, i) <==> Bit(b, i))
    decreases i
  {
    LowSum(a, b);
    hide Sum, Half, Low;
    if i > 0 {
      SumBit(Half(a), Half(b), i - 1);
    }
  }

  lemma SumIs(a: bv32, b: bv32)
    ensures OfWord(Sum(a, b)) == Xor(OfWord(a), OfWord(b))
  {
    hide Sum, Low, Half;
    forall i: nat
      ensures i in OfWord(Sum(a, b)) <==> i in Xor(OfWord(a), OfWord(b))
    {
      InOfBits(Sum(a, b), 32, 0, i);
      InOfBits(a, 32, 0, i);
      InOfBits(b, 32, 0, i);
      SumBit(a, b, i);
    }
  }

  function Byte(v: bv32): bv32 {
    v >> 8
  }

  lemma EightHalves(v: bv32)
    ensures Half(Half(Half(Half(Half(Half(Half(Half(v)))))))) == Byte(v)
  {
  }

  lemma FourBytes(v: bv32)
    ensures Byte(Byte(Byte(Byte(v)))) == 0
  {
  }

  lemma ByteUp(v: bv32, i: nat)
    ensures Bit(v, i + 8) == Bit(Byte(v), i)
  {
    EightHalves(v);
    hide Half, Low, Byte;
    var v2 := Half(Half(v));
    var v4 := Half(Half(v2));
    var v6 := Half(Half(v4));
    assert Bit(v, i + 8) == Bit(v2, i + 6);
    assert Bit(v2, i + 6) == Bit(v4, i + 4);
    assert Bit(v4, i + 4) == Bit(v6, i + 2);
    assert Bit(v6, i + 2) == Bit(Half(Half(v6)), i);
  }

  lemma NoHighBit(v: bv32)
    ensures !Bit(v, 32)
  {
    ByteUp(v, 24);
    ByteUp(Byte(v), 16);
    ByteUp(Byte(Byte(v)), 8);
    ByteUp(Byte(Byte(Byte(v))), 0);
    FourBytes(v);
  }

  lemma HalfIs(v: bv32)
    ensures OfWord(Half(v)) == ShiftedRight(OfWord(v), 1)
    ensures 0 in OfWord(v) <==> Low(v)
  {
    InOfBits(v, 32, 0, 0);
    hide Half, Low;
    forall i: nat
      ensures i in OfWord(Half(v)) <==> i in ShiftedRight(OfWord(v), 1)
    {
      InOfBits(Half(v), 32, 0, i);
      InOfBits(v, 32, 0, i + 1);
      InShiftedRight(OfWord(v), 1, i);
      NoHighBit(v);
    }
  }

  function Chosen(b: bool, i: nat): Word {
    if b then {i} else {}
  }

  function OfBytes(s: seq<bv32>): seq<Octet> {
    if s == [] then [] else [OfBits(s[0], 8, 0)] + OfBytes(s[1..])
  }

  /** Four bits at a time. */
  lemma FourBits(v: bv32, w: nat, at: nat)
    requires w >= 4
    ensures OfBits(v, w, at) ==
            Chosen(v & 1 != 0, at) + Chosen(v & 2 != 0, at + 1) + Chosen(v & 4 != 0, at + 2) +
            Chosen(v & 8 != 0, at + 3) + OfBits(v >> 4, w - 4, at + 4)
  {
    var v1 := Half(v);
    var v2 := Half(v1);
    var v3 := Half(v2);
    FourHalves(v);
    hide Half, Low;
    assert OfBits(v, w, at) == Chosen(Low(v), at) + OfBits(v1, w - 1, at + 1);
    assert OfBits(v1, w - 1, at + 1) == Chosen(Low(v1), at + 1) + OfBits(v2, w - 2, at + 2);
    assert OfBits(v2, w - 2, at + 2) == Chosen(Low(v2), at + 2) + OfBits(v3, w - 3, at + 3);
    assert OfBits(v3, w - 3, at + 3) == Chosen(Low(v3), at + 3) + OfBits(Half(v3), w - 4, at + 4);
  }

  lemma FourHalves(v: bv32)
    ensures Half(Half(Half(Half(v)))) == v >> 4
    ensures Low(v) == (v & 1 != 0) && Low(Half(v)) == (v & 2 != 0) && Low(Half(Half(v))) == (v & 4 != 0) &&
            Low(Half(Half(Half(v)))) == (v & 8 != 0)
  {
  }

  lemma {:induction false} NoBits(w: nat, at: nat)
    ensures OfBits(0, w, at) == {}
  {
    if w > 0 {
      assert !Low(0) && Half(0) == 0;
      NoBits(w - 1, at + 1);
    }
  }

  // ------------------------------------------------------------------ the division on machine words

  function WordStep(v: bv32): bv32 {
    if Low(v) then Sum(Half(v), 0x82f63b78) else Half(v)
  }

  lemma PolynomialIs()
    ensures OfWord(0x82f63b78) == POLYNOMIAL
  {
    hide OfBits;
    assert OfBits(0x8, 4, 28) == {31} by {
      NoBits(0, 32);
      FourBits(0x8, 4, 28);
    }
    assert OfBits(0x82, 8, 24) == {25, 31} by {
      FourBits(0x82, 8, 24);
    }
    assert OfBits(0x82f, 12, 20) == {20, 21, 22, 23, 25, 31} by {
      FourBits(0x82f, 12, 20);
    }
    assert OfBits(0x82f6, 16, 16) == {17, 18, 20, 21, 22, 23, 25, 31} by {
      FourBits(0x82f6, 16, 16);
    }
    assert OfBits(0x82f63, 20, 12) == {12, 13, 17, 18, 20, 21, 22, 23, 25, 31} by {
      FourBits(0x82f63, 20, 12);
    }
    assert OfBits(0x82f63b, 24, 8) == {8, 9, 11, 12, 13, 17, 18, 20, 21, 22, 23, 25, 31} by {
      FourBits(0x82f63b, 24, 8);
    }
    assert OfBits(0x82f63b7, 28, 4) == {4, 5, 6, 8, 9, 11, 12, 13, 17, 18, 20, 21, 22, 23, 25, 31} by {
      FourBits(0x82f63b7, 28, 4);
    }
    assert OfBits(0x82f63b78, 32, 0) == {3, 4, 5, 6, 8, 9, 11, 12, 13, 17, 18, 20, 21, 22, 23, 25, 31} by {
      FourBits(0x82f63b78, 32, 0);
    }
  }

  lemma StepIs(v: bv32)
    ensures OfWord(WordStep(v)) == BitStep(OfWord(v))
  {
    HalfIs(v);
    SumIs(Half(v), 0x82f63b78);
    PolynomialIs();
    hide OfWord, Xor, Sum, Half, Low;
  }

  function WordSteps(n: nat, v: bv32): bv32 {
    if n == 0 then v else WordStep(WordSteps(n - 1, v))
  }

  lemma {:induction false} StepsAre(n: nat, v: bv32)
    ensures OfWord(WordSteps(n, v)) == BitSteps(n, OfWord(v))
  {
    hide OfWord, WordStep, BitStep;
    if n > 0 {
      StepsAre(n - 1, v);
      StepIs(WordSteps(n - 1, v));
    }
  }

  function WordByte(l: bv32, b: bv32): bv32 {
    var v := WordStep(WordStep(WordStep(WordStep(Sum(l, b)))));
    WordStep(WordStep(WordStep(WordStep(v))))
  }

  lemma EightSteps(v: bv32)
    ensures WordSteps(8, v) ==
            WordStep(WordStep(WordStep(WordStep(WordStep(WordStep(WordStep(WordStep(v))))))))
  {
    hide WordStep;
    assert WordSteps(2, v) == WordStep(WordSteps(1, v)) && WordSteps(1, v) == WordStep(WordSteps(0, v));
    assert WordSteps(4, v) == WordStep(WordSteps(3, v)) && WordSteps(3, v) == WordStep(WordSteps(2, v));
    assert WordSteps(6, v) == WordStep(WordSteps(5, v)) && WordSteps(5, v) == WordStep(WordSteps(4, v));
    assert WordSteps(8, v) == WordStep(WordSteps(7, v)) && WordSteps(7, v) == WordStep(WordSteps(6, v));
  }

  lemma SmallWord(b: bv32)
    requires b < 256
    ensures OfWord(b) == OfBits(b, 8, 0)
  {
    ByteOnly(b);
    hide Byte, Half, Low;
    forall i: nat
      ensures i in OfWord(b) <==> i in OfBits(b, 8, 0)
    {
      InOfBits(b, 32, 0, i);
      InOfBits(b, 8, 0, i);
      if i >= 8 {
        ByteUp(b, i - 8);
        ZeroHasNoBit(i - 8);
      }
    }
  }

  lemma ByteOnly(b: bv32)
    requires b < 256
    ensures Byte(b) == 0
  {
  }

  lemma {:induction false} ZeroHasNoBit(i: nat)
    ensures !Bit(0, i)
  {
    assert !Low(0) && Half(0) == 0;
    if i > 0 {
      ZeroHasNoBit(i - 1);
    }
  }

  lemma ByteIs(l: bv32, b: bv32)
    requires b < 256
    ensures OfWord(WordByte(l, b)) == ByteStep(OfWord(l), OfBits(b, 8, 0))
  {
    hide OfWord, WordStep, ByteStep, Xor, Sum, WordSteps;
    SmallWord(b);
    SumIs(l, b);
    EightSteps(Sum(l, b));
    StepsAre(8, Sum(l, b));
    StepIsZeroByte(OfWord(l), OfBits(b, 8, 0));
    ZeroByteIsEightSteps(Xor(OfWord(l), OfWord(b)));
  }

  // ------------------------------------------------------------------ the answer

  /** "TestCRCBuffer". */
  const TEST_BUFFER: seq<bv32> :=
    [0x54, 0x65, 0x73, 0x74, 0x43, 0x52, 0x43, 0x42, 0x75, 0x66, 0x66, 0x65, 0x72]

  /** The state of the loop before each letter, and after the last. */
  const STATES: seq<bv32> := [
    0xffffffff, 0x3b3de162, 0xd4f1590a, 0x9fe7e98, 0xae7a99b4, 0x270a7107, 0x64f3c4be,
    0x4c22d062, 0x20f1ac0e, 0xe8310e9a, 0xbec591ab, 0x7c1baf86, 0xf01c4041, 0x2343a605]

  lemma States(i: nat)
    requires i < 13
    ensures |TEST_BUFFER| == 13 && |STATES| == 14 && TEST_BUFFER[i] < 256
    ensures STATES[i + 1] == WordByte(STATES[i], TEST_BUFFER[i])
  {
    Turns();
    hide WordByte;
  }

  lemma Turns()
    ensures WordByte(0xffffffff, 0x54) == 0x3b3de162
    ensures WordByte(0x3b3de162, 0x65) == 0xd4f1590a
    ensures WordByte(0xd4f1590a, 0x73) == 0x9fe7e98
    ensures WordByte(0x9fe7e98, 0x74) == 0xae7a99b4
    ensures WordByte(0xae7a99b4, 0x43) == 0x270a7107
    ensures WordByte(0x270a7107, 0x52) == 0x64f3c4be
    ensures WordByte(0x64f3c4be, 0x43) == 0x4c22d062
    ensures WordByte(0x4c22d062, 0x42) == 0x20f1ac0e
    ensures WordByte(0x20f1ac0e, 0x75) == 0xe8310e9a
    ensures WordByte(0xe8310e9a, 0x66) == 0xbec591ab
    ensures WordByte(0xbec591ab, 0x66) == 0x7c1baf86
    ensures WordByte(0x7c1baf86, 0x65) == 0xf01c4041
    ensures WordByte(0xf01c4041, 0x72) == 0x2343a605
  {
  }

  lemma {:induction false} FoldsTo(i: nat)
    requires i <= 13
    ensures |TEST_BUFFER| == 13 && |STATES| == 14
    ensures Fold(OfWord(STATES[i]), OfBytes(TEST_BUFFER[i..])) == OfWord(STATES[13])
    decreases 13 - i
  {
    hide OfWord, WordByte, ByteStep, OfBits;
    if i < 13 {
      States(i);
      ByteIs(STATES[i], TEST_BUFFER[i]);
      assert TEST_BUFFER[i..][1..] == TEST_BUFFER[i + 1..];
      assert OfBytes(TEST_BUFFER[i..])[1..] == OfBytes(TEST_BUFFER[i + 1..]);
      FoldsTo(i + 1);
    }
  }

  /** The bits of a word from one on. */
  function From(at: nat): Word {
    set i | i in ALL_ONES && i >= at
  }

  lemma FourOnes(v: bv32, at: nat)
    requires at <= 28 && v & 15 == 15 && OfBits(v >> 4, 28 - at, at + 4) == From(at + 4)
    ensures OfBits(v, 32 - at, at) == From(at)
  {
    FourBits(v, 32 - at, at);
    LowNibble(v);
    hide OfBits;
  }

  lemma LowNibble(v: bv32)
    requires v & 15 == 15
    ensures v & 1 != 0 && v & 2 != 0 && v & 4 != 0 && v & 8 != 0
  {
  }

  lemma AllOnes()
    ensures OfWord(0xffffffff) == ALL_ONES
  {
    hide OfBits;
    NoBits(0, 32);
    FourOnes(0xf, 28);
    FourOnes(0xff, 24);
    FourOnes(0xfff, 20);
    FourOnes(0xffff, 16);
    FourOnes(0xfffff, 12);
    FourOnes(0xffffff, 8);
    FourOnes(0xfffffff, 4);
    FourOnes(0xffffffff, 0);
  }

  /** The answer the source compares an accelerated implementation with. */
  lemma KnownAnswer()
    ensures Extended({}, OfBytes(TEST_BUFFER)) == OfWord(0xdcbc59fa)
  {
    AllOnes();
    FoldsTo(0);
    assert TEST_BUFFER[0..] == TEST_BUFFER;
    SumIs(STATES[13], 0xffffffff);
    assert Sum(STATES[13], 0xffffffff) == 0xdcbc59fa;
    hide Fold, OfWord, OfBytes;
    XorGroup(ALL_ONES, {}, {});
  }
}
