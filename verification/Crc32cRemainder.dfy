// What the checksum means: the remainder of a division of polynomials over the integers modulo 2 (section 12.1 of
// RFC 3720; util/crc32c.cc).

module Crc32cRemainder {
  import opened Crc32c

  /** A polynomial is the set of its exponents; the sum of two is their Xor. */
  type Polynomial = set<nat>

  /** The Castagnoli generator, 0x11edc6f41. */
  const GENERATOR: Polynomial := {32, 28, 27, 26, 25, 23, 22, 20, 19, 18, 14, 13, 11, 10, 9, 8, 6, 0}

  /** The message: the first byte has the highest exponents, and in every byte the lowest bit has. */
  ghost function Message(data: seq<Octet>): Polynomial {
    set k: nat, b: nat | k < |data| && b < 8 && b in data[k] :: 8 * (|data| - 1 - k) + 7 - b
  }

  /** A 32-bit word as a polynomial, its lowest bit with exponent 31. */
  function Mirror(w: Word): Polynomial {
    set i | i in w && i < 32 :: 31 - i
  }

  /** The other bits of a 32-bit word. */
  function Complement(w: Word): Word {
    set i: nat | i < 32 && i !in w
  }

  predicate IsWord(w: Word) {
    forall i | i in w :: i < 32
  }

  /** The sum of the generator times x^q for all the `q`. */
  function Multiple(q: seq<nat>): Polynomial {
    if q == [] then {} else Xor(ShiftedLeft(GENERATOR, q[0]), Multiple(q[1..]))
  }

  /** The difference is a multiple of the generator. */
  ghost predicate Congruent(a: Polynomial, b: Polynomial) {
    exists q :: Multiple(q) == Xor(a, b)
  }

  // ------------------------------------------------------------------ congruence

  lemma {:induction false} MultipleSum(p: seq<nat>, q: seq<nat>)
    ensures Multiple(p + q) == Xor(Multiple(p), Multiple(q))
    decreases p
  {
    hide Xor, ShiftedLeft;
    if p == [] {
      assert p + q == q;
      XorGroup(Multiple(q), {}, {});
    } else {
      assert (p + q)[1..] == p[1..] + q && (p + q)[0] == p[0];
      MultipleSum(p[1..], q);
      XorGroup(ShiftedLeft(GENERATOR, p[0]), Multiple(p[1..]), Multiple(q));
    }
  }

  lemma ShiftSum(a: Polynomial, b: Polynomial, n: nat)
    ensures ShiftedLeft(Xor(a, b), n) == Xor(ShiftedLeft(a, n), ShiftedLeft(b, n))
  {
    forall i
      ensures i in ShiftedLeft(Xor(a, b), n) <==> i in Xor(ShiftedLeft(a, n), ShiftedLeft(b, n))
    {
      InShifted(a, n, i);
      InShifted(b, n, i);
      InShifted(Xor(a, b), n, i);
    }
  }

  lemma InShifted(a: Polynomial, n: nat, i: int)
    ensures i in ShiftedLeft(a, n) <==> i >= n && i - n in a
  {
    if i >= n && i - n in a {
      assert (i - n) + n in ShiftedLeft(a, n);
    }
  }

  lemma ShiftTwice(a: Polynomial, m: nat, n: nat)
    ensures ShiftedLeft(ShiftedLeft(a, m), n) == ShiftedLeft(a, m + n)
  {
    forall i
      ensures i in ShiftedLeft(ShiftedLeft(a, m), n) <==> i in ShiftedLeft(a, m + n)
    {
      InShifted(a, m, i - n);
      InShifted(ShiftedLeft(a, m), n, i);
      InShifted(a, m + n, i);
    }
  }

  function Raised(q: seq<nat>, n: nat): seq<nat> {
    if q == [] then [] else [q[0] + n] + Raised(q[1..], n)
  }

  lemma {:induction false} MultipleShift(q: seq<nat>, n: nat)
    ensures Multiple(Raised(q, n)) == ShiftedLeft(Multiple(q), n)
    decreases q
  {
    hide Xor;
    if q == [] {
      assert ShiftedLeft({}, n) == {};
    } else {
      MultipleShift(q[1..], n);
      assert Raised(q, n)[1..] == Raised(q[1..], n);
      ShiftTwice(GENERATOR, q[0], n);
      ShiftSum(ShiftedLeft(GENERATOR, q[0]), Multiple(q[1..]), n);
    }
  }

  lemma Reflexive(a: Polynomial)
    ensures Congruent(a, a)
  {
    XorGroup(a, a, a);
    assert Multiple([]) == Xor(a, a);
  }

  lemma Transitive(a: Polynomial, b: Polynomial, c: Polynomial)
    requires Congruent(a, b) && Congruent(b, c)
    ensures Congruent(a, c)
  {
    var p :| Multiple(p) == Xor(a, b);
    var q :| Multiple(q) == Xor(b, c);
    MultipleSum(p, q);
    assert Xor(Xor(a, b), Xor(b, c)) == Xor(a, c);
    assert Multiple(p + q) == Xor(a, c);
  }

  lemma Symmetric(a: Polynomial, b: Polynomial)
    requires Congruent(a, b)
    ensures Congruent(b, a)
  {
    XorGroup(a, b, b);
  }

  lemma AddCongruent(a: Polynomial, b: Polynomial, c: Polynomial)
    requires Congruent(a, b)
    ensures Congruent(Xor(a, c), Xor(b, c))
  {
    var q :| Multiple(q) == Xor(a, b);
    assert Xor(Xor(a, c), Xor(b, c)) == Xor(a, b);
  }

  lemma ShiftCongruent(a: Polynomial, b: Polynomial, n: nat)
    requires Congruent(a, b)
    ensures Congruent(ShiftedLeft(a, n), ShiftedLeft(b, n))
  {
    var q :| Multiple(q) == Xor(a, b);
    MultipleShift(q, n);
    ShiftSum(a, b, n);
    assert Multiple(Raised(q, n)) == Xor(ShiftedLeft(a, n), ShiftedLeft(b, n));
  }

  // ------------------------------------------------------------------ remainders are unique

  ghost predicate Descending(q: seq<nat>) {
    forall i, j | 0 <= i < j < |q| :: q[i] > q[j]
  }

  /** The exponent `x` put in its place, or cancelled. */
  function Inserted(q: seq<nat>, x: nat): seq<nat> {
    if q == [] || x > q[0] then [x] + q
    else if x == q[0] then q[1..]
    else [q[0]] + Inserted(q[1..], x)
  }

  lemma {:induction false} InsertedInOrder(q: seq<nat>, x: nat)
    requires Descending(q)
    ensures Descending(Inserted(q, x)) && forall y | y in Inserted(q, x) :: y == x || y in q
    ensures Multiple(Inserted(q, x)) == Xor(ShiftedLeft(GENERATOR, x), Multiple(q))
    decreases q
  {
    hide Xor, ShiftedLeft;
    if q == [] || x > q[0] {
      assert ([x] + q)[1..] == q;
    } else if x == q[0] {
      XorGroup(ShiftedLeft(GENERATOR, x), ShiftedLeft(GENERATOR, x), Multiple(q[1..]));
      XorGroup(Multiple(q[1..]), {}, {});
    } else {
      var more := Inserted(q[1..], x);
      InsertedInOrder(q[1..], x);
      assert ([q[0]] + more)[1..] == more;
      var a, b, c := ShiftedLeft(GENERATOR, q[0]), ShiftedLeft(GENERATOR, x), Multiple(q[1..]);
      XorGroup(a, b, c);
      XorGroup(b, a, c);
    }
  }

  function Ordered(q: seq<nat>): seq<nat> {
    if q == [] then [] else Inserted(Ordered(q[1..]), q[0])
  }

  lemma {:induction false} OrderedSame(q: seq<nat>)
    ensures Descending(Ordered(q)) && Multiple(Ordered(q)) == Multiple(q)
    decreases q
  {
    if q != [] {
      OrderedSame(q[1..]);
      InsertedInOrder(Ordered(q[1..]), q[0]);
    }
  }

  lemma {:induction false} MultipleBound(q: seq<nat>, n: nat)
    requires forall x | x in q :: x < n
    ensures forall i | i in Multiple(q) :: i < n + 32
    decreases q
  {
    if q != [] {
      assert q[0] in q && forall x | x in q[1..] :: x in q;
      MultipleBound(q[1..], n);
    }
  }

  /** A multiple of the generator is zero or has an exponent from 32 on. */
  lemma MultipleDegree(q: seq<nat>)
    ensures Multiple(q) == {} || exists i :: i in Multiple(q) && i >= 32
  {
    OrderedSame(q);
    var d := Ordered(q);
    if d != [] {
      MultipleBound(d[1..], d[0]);
      assert 32 in GENERATOR;
      InShifted(GENERATOR, d[0], 32 + d[0]);
      assert 32 + d[0] in Multiple(d);
    }
  }

  /** Two remainders of the same polynomial are equal. */
  lemma RemainderUnique(a: Polynomial, r: Polynomial, s: Polynomial)
    requires IsWord(r) && IsWord(s) && Congruent(r, a) && Congruent(s, a)
    ensures r == s
  {
    Symmetric(s, a);
    Transitive(r, a, s);
    var q :| Multiple(q) == Xor(r, s);
    MultipleDegree(q);
    assert Xor(r, s) == {};
    assert forall i :: i in r <==> i in s;
  }

  // ------------------------------------------------------------------ the steps of the division

  lemma InMirror(w: Word, i: int)
    ensures i in Mirror(w) <==> 0 <= i < 32 && 31 - i in w
  {
    if 0 <= i < 32 && 31 - i in w {
      assert 31 - (31 - i) in Mirror(w);
    }
  }

  lemma InShiftedRight(w: Word, n: nat, i: int)
    ensures i in ShiftedRight(w, n) <==> i >= 0 && i + n in w
  {
    if i >= 0 && i + n in w {
      assert (i + n) - n in ShiftedRight(w, n);
    }
  }

  lemma GeneratorMirrors()
    ensures forall i: nat | i < 32 :: i in GENERATOR <==> 31 - i in POLYNOMIAL
    ensures 32 in GENERATOR && forall i | i in GENERATOR :: i <= 32
  {
  }

  lemma InStep(l: Word, j: int)
    ensures j in BitStep(l) <==> !((j >= 0 && j + 1 in l) <==> (0 in l && j in POLYNOMIAL))
  {
    InShiftedRight(l, 1, j);
  }

  /** A bit step multiplies by x and takes the generator away if need be. */
  lemma StepMirrored(l: Word)
    requires IsWord(l)
    ensures IsWord(BitStep(l))
    ensures Mirror(BitStep(l)) ==
            if 0 in l then Xor(ShiftedLeft(Mirror(l), 1), GENERATOR) else ShiftedLeft(Mirror(l), 1)
  {
    var m := if 0 in l then Xor(ShiftedLeft(Mirror(l), 1), GENERATOR) else ShiftedLeft(Mirror(l), 1);
    GeneratorMirrors();
    hide GENERATOR, POLYNOMIAL, BitStep, ShiftedRight, ShiftedLeft, Mirror;
    StepIsWord(l);
    forall i: int
      ensures i in Mirror(BitStep(l)) <==> i in m
    {
      InMirror(BitStep(l), i);
      InShifted(Mirror(l), 1, i);
      InMirror(l, i - 1);
      InStep(l, 31 - i);
    }
  }

  lemma StepIsWord(l: Word)
    requires IsWord(l)
    ensures IsWord(BitStep(l))
  {
    forall i | i in BitStep(l)
      ensures i < 32
    {
      InStep(l, i);
    }
  }

  lemma StepCongruent(l: Word)
    requires IsWord(l)
    ensures IsWord(BitStep(l)) && Congruent(Mirror(BitStep(l)), ShiftedLeft(Mirror(l), 1))
  {
    StepMirrored(l);
    var m := ShiftedLeft(Mirror(l), 1);
    hide BitStep, Mirror, GENERATOR;
    if 0 in l {
      OneGenerator(m);
    } else {
      Reflexive(m);
    }
  }

  lemma OneGenerator(m: Polynomial)
    ensures Congruent(Xor(m, GENERATOR), m)
  {
    ShiftNone(GENERATOR);
    XorGroup(GENERATOR, {}, {});
    XorGroup(m, GENERATOR, m);
    XorGroup(GENERATOR, m, m);
    hide GENERATOR, Xor, ShiftedLeft;
    assert Multiple([0]) == Xor(GENERATOR, Multiple([]));
  }

  lemma {:induction false} StepsCongruent(n: nat, l: Word)
    requires IsWord(l)
    ensures IsWord(BitSteps(n, l)) && Congruent(Mirror(BitSteps(n, l)), ShiftedLeft(Mirror(l), n))
  {
    hide Congruent, BitStep, Mirror, IsWord;
    if n == 0 {
      ShiftNone(Mirror(l));
      Reflexive(Mirror(l));
    } else {
      var before := BitSteps(n - 1, l);
      StepsCongruent(n - 1, l);
      StepCongruent(before);
      ShiftCongruent(Mirror(before), ShiftedLeft(Mirror(l), n - 1), 1);
      ShiftTwice(Mirror(l), n - 1, 1);
      Transitive(Mirror(BitStep(before)), ShiftedLeft(Mirror(before), 1), ShiftedLeft(Mirror(l), n));
    }
  }

  lemma ShiftNone(a: Polynomial)
    ensures ShiftedLeft(a, 0) == a
  {
    forall i
      ensures i in ShiftedLeft(a, 0) <==> i in a
    {
      InShifted(a, 0, i);
    }
  }

  /** Bits that are shifted in from above come out unchanged. */
  lemma {:induction false} HighBitsFall(n: nat, h: Word)
    ensures BitSteps(n, ShiftedLeft(h, n)) == h
  {
    if n == 0 {
      ShiftNone(h);
    } else {
      StepsFirst(n - 1, ShiftedLeft(h, n));
      assert BitStep(ShiftedLeft(h, n)) == ShiftedLeft(h, n - 1) by {
        InShifted(h, n, 0);
        forall i
          ensures i in ShiftedRight(ShiftedLeft(h, n), 1) <==> i in ShiftedLeft(h, n - 1)
        {
          InShiftedRight(ShiftedLeft(h, n), 1, i);
          InShifted(h, n, i + 1);
          InShifted(h, n - 1, i);
        }
      }
      HighBitsFall(n - 1, h);
    }
  }

  lemma {:induction false} StepsFirst(n: nat, l: Word)
    ensures BitSteps(n + 1, l) == BitSteps(n, BitStep(l))
  {
    hide BitStep;
    if n > 0 {
      StepsFirst(n - 1, l);
    }
  }

  /** The table does eight bit steps at once. */
  lemma ZeroByteIsEightSteps(l: Word)
    ensures ZeroByte(l) == BitSteps(8, l)
  {
    var high := ShiftedRight(l, 8);
    forall i
      ensures i in Xor(LowByte(l), ShiftedLeft(high, 8)) <==> i in l
    {
      InShifted(high, 8, i);
      InShiftedRight(l, 8, i - 8);
    }
    assert l == Xor(LowByte(l), ShiftedLeft(high, 8));
    BitsLinear(8, LowByte(l), ShiftedLeft(high, 8));
    HighBitsFall(8, high);
  }

  // ------------------------------------------------------------------ messages

  /** The polynomial of one byte. */
  function OfByte(b: Octet): Polynomial {
    set i | i in b :: 7 - i
  }

  lemma InOfByte(b: Octet, i: int)
    ensures i in OfByte(b) <==> 0 <= i < 8 && 7 - i in b
  {
    if 0 <= i < 8 && 7 - i in b {
      assert 7 - (7 - i) in OfByte(b);
    }
  }

  lemma InMessage(data: seq<Octet>, i: nat)
    ensures i in Message(data) <==> i / 8 < |data| && 7 - i % 8 in data[|data| - 1 - i / 8]
  {
    if i / 8 < |data| && 7 - i % 8 in data[|data| - 1 - i / 8] {
      var k, b := |data| - 1 - i / 8, 7 - i % 8;
      assert i == 8 * (|data| - 1 - k) + 7 - b;
      assert i in Message(data);
    }
  }

  lemma MessageAppends(data: seq<Octet>, b: Octet)
    ensures Message(data + [b]) == Xor(ShiftedLeft(Message(data), 8), OfByte(b))
  {
    forall i: nat
      ensures i in Message(data + [b]) <==> i in Xor(ShiftedLeft(Message(data), 8), OfByte(b))
    {
      InMessage(data + [b], i);
      InShifted(Message(data), 8, i);
      InOfByte(b, i);
      if i >= 8 {
        InMessage(data, i - 8);
        assert (i - 8) / 8 == i / 8 - 1 && (i - 8) % 8 == i % 8;
      }
    }
  }

  lemma ByteMirrored(l: Word, b: Octet)
    requires IsWord(l)
    ensures IsWord(Xor(l, b))
    ensures ShiftedLeft(Mirror(Xor(l, b)), 8) == Xor(ShiftedLeft(Mirror(l), 8), ShiftedLeft(OfByte(b), 32))
  {
    forall i
      ensures i in ShiftedLeft(Mirror(Xor(l, b)), 8) <==>
              i in Xor(ShiftedLeft(Mirror(l), 8), ShiftedLeft(OfByte(b), 32))
    {
      InShifted(Mirror(Xor(l, b)), 8, i);
      InShifted(Mirror(l), 8, i);
      InShifted(OfByte(b), 32, i);
      InMirror(Xor(l, b), i - 8);
      InMirror(l, i - 8);
      InOfByte(b, i - 32);
    }
  }

  /** A byte multiplies by x^8 and adds the byte, times x^32. */
  lemma ByteCongruent(l: Word, b: Octet)
    requires IsWord(l)
    ensures IsWord(ByteStep(l, b))
    ensures Congruent(Mirror(ByteStep(l, b)), Xor(ShiftedLeft(Mirror(l), 8), ShiftedLeft(OfByte(b), 32)))
  {
    hide Congruent, Mirror, Xor, ShiftedLeft, ByteStep, ZeroByte, BitSteps, OfByte;
    ByteMirrored(l, b);
    StepIsZeroByte(l, b);
    ZeroByteIsEightSteps(Xor(l, b));
    StepsCongruent(8, Xor(l, b));
  }

  /** What a state of the loop stands for. */
  ghost function Dividend(l: Word, data: seq<Octet>): Polynomial {
    Xor(ShiftedLeft(Mirror(l), 8 * |data|), ShiftedLeft(Message(data), 32))
  }

  lemma DividendAppends(l: Word, data: seq<Octet>, b: Octet)
    ensures Dividend(l, data + [b]) == Xor(ShiftedLeft(Dividend(l, data), 8), ShiftedLeft(OfByte(b), 32))
  {
    hide Xor, ShiftedLeft, Mirror, OfByte, Message;
    var m, n, o := Message(data), 8 * |data|, OfByte(b);
    MessageAppends(data, b);
    ShiftSum(ShiftedLeft(m, 8), o, 32);
    ShiftTwice(m, 8, 32);
    ShiftTwice(m, 32, 8);
    ShiftSum(ShiftedLeft(Mirror(l), n), ShiftedLeft(m, 32), 8);
    ShiftTwice(Mirror(l), n, 8);
    XorGroup(ShiftedLeft(Mirror(l), n + 8), ShiftedLeft(m, 40), ShiftedLeft(o, 32));
  }

  lemma {:induction false} FoldCongruent(l: Word, data: seq<Octet>)
    requires IsWord(l)
    ensures IsWord(Fold(l, data)) && Congruent(Mirror(Fold(l, data)), Dividend(l, data))
    decreases |data|
  {
    hide Congruent, Mirror, Xor, ShiftedLeft, ByteStep, OfByte, Dividend, IsWord;
    if data == [] {
      EmptyDividend(l);
      Reflexive(Mirror(l));
    } else {
      var front, b := data[..|data| - 1], data[|data| - 1];
      assert data == front + [b];
      FoldCongruent(l, front);
      FoldAppend(l, front, [b]);
      OneByte(Fold(l, front), [b]);
      var before := Mirror(Fold(l, front));
      ByteCongruent(Fold(l, front), b);
      ShiftCongruent(before, Dividend(l, front), 8);
      AddCongruent(ShiftedLeft(before, 8), ShiftedLeft(Dividend(l, front), 8), ShiftedLeft(OfByte(b), 32));
      DividendAppends(l, front, b);
      Transitive(Mirror(Fold(l, data)), Xor(ShiftedLeft(before, 8), ShiftedLeft(OfByte(b), 32)), Dividend(l, data));
    }
  }

  lemma EmptyDividend(l: Word)
    ensures Dividend(l, []) == Mirror(l)
  {
    assert Message([]) == {};
    assert ShiftedLeft({}, 32) == {};
    ShiftNone(Mirror(l));
    XorGroup(Mirror(l), {}, {});
  }

  lemma Complements(w: Word)
    requires IsWord(w)
    ensures Xor(w, ALL_ONES) == Complement(w) && IsWord(Complement(w)) && Complement(Complement(w)) == w
  {
  }

  /** The complement of the checksum is, mirrored, the remainder of the message times x^32, its first 32 bits
      complemented if it is the checksum from the start, otherwise with the complement of the checksum so far put
      before the message. */
  lemma ChecksumIsRemainder(crc: Word, data: seq<Octet>, r: Word)
    requires IsWord(crc) && IsWord(r)
    ensures r == Extended(crc, data) <==>
            Congruent(Mirror(Complement(r)),
                      Xor(ShiftedLeft(Message(data), 32), ShiftedLeft(Mirror(Complement(crc)), 8 * |data|)))
  {
    var a := Xor(ShiftedLeft(Message(data), 32), ShiftedLeft(Mirror(Complement(crc)), 8 * |data|));
    var l := Complement(crc);
    Complements(crc);
    FoldCongruent(l, data);
    Complements(Fold(l, data));
    Complements(Complement(Fold(l, data)));
    Complements(r);
    hide Xor, ShiftedLeft, Message, Mirror, Fold, Congruent, Complement;
    XorGroup(ShiftedLeft(Message(data), 32), ShiftedLeft(Mirror(l), 8 * |data|), {});
    assert a == Dividend(l, data);
    assert Complement(Extended(crc, data)) == Fold(l, data);
    if Congruent(Mirror(Complement(r)), a) {
      MirrorIsWord(Complement(r));
      MirrorIsWord(Fold(l, data));
      RemainderUnique(a, Mirror(Complement(r)), Mirror(Fold(l, data)));
      MirrorInjective(Complement(r), Fold(l, data));
    }
  }

  lemma MirrorIsWord(w: Word)
    ensures IsWord(Mirror(w))
  {
  }

  lemma MirrorInjective(v: Word, w: Word)
    requires IsWord(v) && IsWord(w) && Mirror(v) == Mirror(w)
    ensures v == w
  {
    forall i: nat | i < 32
      ensures i in v <==> i in w
    {
      InMirror(v, 31 - i);
      InMirror(w, 31 - i);
    }
  }
}
