// CRC32C (section 12.1 of RFC 3720): the four-lane loop computes what the byte-at-a-time loop does (util/crc32c.cc).

module Crc32c {
  /** A machine word is the set of its one bits, a byte one whose bits are below 8. */
  type Word = set<nat>
  type Octet = s: set<nat> | forall i | i in s :: i < 8

  function Xor(a: Word, b: Word): Word {
    (a - b) + (b - a)
  }

  function ShiftedRight(a: Word, n: nat): Word {
    set i | i in a && i >= n :: i - n
  }

  function ShiftedLeft(a: Word, n: nat): Word {
    set i | i in a :: i + n
  }

  function LowByte(a: Word): Octet {
    set i | i in a && i < 8
  }

  const ALL_ONES: Word := set i: nat | i < 32

  /** 0x82f63b78, the reflected polynomial. */
  const POLYNOMIAL: Word := {3, 4, 5, 6, 8, 9, 11, 12, 13, 17, 18, 20, 21, 22, 23, 25, 31}

  // ------------------------------------------------------------------ the tables, by their recurrences

  /** One bit of division by the polynomial. */
  function BitStep(c: Word): Word {
    if 0 in c then Xor(ShiftedRight(c, 1), POLYNOMIAL) else ShiftedRight(c, 1)
  }

  function BitSteps(n: nat, c: Word): Word {
    if n == 0 then c else BitStep(BitSteps(n - 1, c))
  }

  /** kByteExtensionTable. */
  function ByteTable(c: Octet): Word {
    BitSteps(8, c)
  }

  /** A zero byte, by table. */
  function ZeroByte(l: Word): Word {
    Xor(ByteTable(LowByte(l)), ShiftedRight(l, 8))
  }

  function Iterated(f: Word -> Word, n: nat, l: Word): Word {
    if n == 0 then l else f(Iterated(f, n - 1, l))
  }

  /** kStrideExtensionTable0 to 3: sixteen zero bytes after a byte of a word. */
  function StrideTable(k: nat, c: Word): Word
    requires k < 4
  {
    Iterated(ZeroByte, 16, ShiftedLeft(c, 8 * (3 - k)))
  }

  // ------------------------------------------------------------------ byte at a time

  function ByteStep(l: Word, b: Octet): Word {
    Xor(ByteTable(Xor(LowByte(l), b)), ShiftedRight(l, 8))
  }

  function Fold(l: Word, data: seq<Octet>): Word
    decreases data
  {
    if data == [] then l else Fold(ByteStep(l, data[0]), data[1..])
  }

  /** The checksum of a string with checksum `crc` and then `data`, one byte at a time. */
  function Extended(crc: Word, data: seq<Octet>): Word {
    Xor(Fold(Xor(crc, ALL_ONES), data), ALL_ONES)
  }

  lemma {:induction false} FoldAppend(l: Word, a: seq<Octet>, b: seq<Octet>)
    ensures Fold(l, a + b) == Fold(Fold(l, a), b)
    decreases a
  {
    if a == [] {
      assert a + b == b;
    } else {
      assert (a + b)[1..] == a[1..] + b;
      FoldAppend(ByteStep(l, a[0]), a[1..], b);
    }
  }

  lemma XorTwice(a: Word, b: Word)
    ensures Xor(Xor(a, b), b) == a
  {
  }

  /** A checksum may be computed piece by piece. */
  lemma ExtendConcatenation(crc: Word, a: seq<Octet>, b: seq<Octet>)
    ensures Extended(Extended(crc, a), b) == Extended(crc, a + b)
  {
    FoldAppend(Xor(crc, ALL_ONES), a, b);
    XorTwice(Fold(Xor(crc, ALL_ONES), a), ALL_ONES);
  }

  // ------------------------------------------------------------------ linearity

  lemma XorGroup(a: Word, b: Word, c: Word)
    ensures Xor(Xor(a, b), c) == Xor(a, Xor(b, c)) && Xor(a, b) == Xor(b, a)
    ensures Xor(a, {}) == a && Xor({}, a) == a && Xor(a, a) == {}
  {
  }

  lemma Exchange(a: Word, b: Word, c: Word, d: Word)
    ensures Xor(Xor(a, b), Xor(c, d)) == Xor(Xor(a, c), Xor(b, d))
  {
  }

  lemma ShiftXor(a: Word, b: Word, n: nat)
    ensures ShiftedRight(Xor(a, b), n) == Xor(ShiftedRight(a, n), ShiftedRight(b, n))
  {
    forall i
      ensures i in ShiftedRight(Xor(a, b), n) <==> i in Xor(ShiftedRight(a, n), ShiftedRight(b, n))
    {
      assert i in ShiftedRight(a, n) <==> i >= 0 && i + n in a;
      assert i in ShiftedRight(b, n) <==> i >= 0 && i + n in b;
      assert i in ShiftedRight(Xor(a, b), n) <==> i >= 0 && i + n in Xor(a, b);
    }
  }

  lemma LowBit(a: Word, b: Word)
    ensures 0 in Xor(a, b) <==> !(0 in a <==> 0 in b)
  {
  }

  lemma BitLinear(a: Word, b: Word)
    ensures BitStep(Xor(a, b)) == Xor(BitStep(a), BitStep(b))
  {
    LowBit(a, b);
    hide Xor, ShiftedRight;
    ShiftXor(a, b, 1);
    var x, y := ShiftedRight(a, 1), ShiftedRight(b, 1);
    XorGroup(x, y, POLYNOMIAL);
    XorGroup(x, POLYNOMIAL, y);
    XorGroup(POLYNOMIAL, y, {});
    XorGroup(POLYNOMIAL, POLYNOMIAL, {});
    XorGroup(Xor(x, y), {}, {});
    Exchange(x, POLYNOMIAL, y, POLYNOMIAL);
  }

  lemma {:induction false} BitsLinear(n: nat, a: Word, b: Word)
    ensures BitSteps(n, Xor(a, b)) == Xor(BitSteps(n, a), BitSteps(n, b))
  {
    hide Xor, BitStep;
    if n > 0 {
      BitsLinear(n - 1, a, b);
      BitLinear(BitSteps(n - 1, a), BitSteps(n - 1, b));
    }
  }

  lemma ByteLinear(a: Word, b: Word)
    ensures ZeroByte(Xor(a, b)) == Xor(ZeroByte(a), ZeroByte(b))
  {
    assert LowByte(Xor(a, b)) == Xor(LowByte(a), LowByte(b));
    BitsLinear(8, LowByte(a), LowByte(b));
    ShiftXor(a, b, 8);
    Exchange(ByteTable(LowByte(a)), ByteTable(LowByte(b)), ShiftedRight(a, 8), ShiftedRight(b, 8));
  }

  ghost predicate Linear(f: Word -> Word) {
    forall a, b {:trigger f(Xor(a, b))} :: f(Xor(a, b)) == Xor(f(a), f(b))
  }

  lemma ZeroByteLinear()
    ensures Linear(ZeroByte)
  {
    forall a: Word, b: Word
      ensures ZeroByte(Xor(a, b)) == Xor(ZeroByte(a), ZeroByte(b))
    {
      ByteLinear(a, b);
    }
  }

  lemma {:induction false} IteratedLinear(f: Word -> Word, n: nat, a: Word, b: Word)
    requires Linear(f)
    ensures Iterated(f, n, Xor(a, b)) == Xor(Iterated(f, n, a), Iterated(f, n, b))
  {
    if n > 0 {
      IteratedLinear(f, n - 1, a, b);
    }
  }

  lemma {:induction false} IteratedAdd(f: Word -> Word, m: nat, n: nat, l: Word)
    ensures Iterated(f, m, Iterated(f, n, l)) == Iterated(f, m + n, l)
  {
    if m > 0 {
      IteratedAdd(f, m - 1, n, l);
    }
  }

  // ------------------------------------------------------------------ words

  /** Bytes as one little-endian word. */
  function WordOf(d: seq<Octet>): Word {
    if d == [] then {} else Xor(d[0], ShiftedLeft(WordOf(d[1..]), 8))
  }

  /** A zero byte brings a word that was shifted by a byte back down. */
  lemma BroughtDown(c: Word)
    ensures ZeroByte(ShiftedLeft(c, 8)) == c
  {
    assert LowByte(ShiftedLeft(c, 8)) == {};
    NothingDivided(8);
    forall i
      ensures i in ShiftedRight(ShiftedLeft(c, 8), 8) <==> i in c
    {
      if i in c {
        assert i + 8 in ShiftedLeft(c, 8);
      }
    }
    XorGroup(c, {}, {});
  }

  lemma {:induction false} NothingDivided(n: nat)
    ensures BitSteps(n, {}) == {}
  {
    if n > 0 {
      NothingDivided(n - 1);
      assert ShiftedRight({}, 1) == {};
    }
  }

  lemma StepIsZeroByte(l: Word, b: Octet)
    ensures ByteStep(l, b) == ZeroByte(Xor(l, b))
  {
    assert LowByte(Xor(l, b)) == Xor(LowByte(l), b);
    ShiftXor(l, b, 8);
    assert ShiftedRight(b, 8) == {};
    XorGroup(ShiftedRight(l, 8), {}, {});
  }

  function FoldBy(f: Word -> Word, l: Word, d: seq<Octet>): Word
    decreases d
  {
    if d == [] then l else FoldBy(f, f(Xor(l, d[0])), d[1..])
  }

  lemma {:induction false} FoldByZeroByte(l: Word, d: seq<Octet>)
    ensures FoldBy(ZeroByte, l, d) == Fold(l, d)
    decreases d
  {
    if d != [] {
      StepIsZeroByte(l, d[0]);
      FoldByZeroByte(ByteStep(l, d[0]), d[1..]);
    }
  }

  ghost predicate BringsDown(f: Word -> Word) {
    forall c {:trigger ShiftedLeft(c, 8)} :: f(ShiftedLeft(c, 8)) == c
  }

  lemma {:induction false} FirstLast(f: Word -> Word, n: nat, l: Word)
    ensures Iterated(f, n + 1, l) == Iterated(f, n, f(l))
  {
    if n > 0 {
      FirstLast(f, n - 1, l);
    }
  }

  /** Adding a word and then dividing by all its bytes is going byte by byte. */
  lemma {:induction false} WordSteps(f: Word -> Word, l: Word, d: seq<Octet>)
    requires Linear(f) && BringsDown(f)
    ensures Iterated(f, |d|, Xor(l, WordOf(d))) == FoldBy(f, l, d)
    decreases d
  {
    if d == [] {
      XorGroup(l, {}, {});
    } else {
      var w := WordOf(d[1..]);
      XorGroup(l, d[0], ShiftedLeft(w, 8));
      assert f(Xor(Xor(l, d[0]), ShiftedLeft(w, 8))) == Xor(f(Xor(l, d[0])), w);
      FirstLast(f, |d| - 1, Xor(l, WordOf(d)));
      WordSteps(f, f(Xor(l, d[0])), d[1..]);
    }
  }

  lemma ZeroByteBringsDown()
    ensures BringsDown(ZeroByte)
  {
    forall c: Word
      ensures ZeroByte(ShiftedLeft(c, 8)) == c
    {
      BroughtDown(c);
    }
  }

  /** Four bytes at once. */
  lemma WordFolds(l: Word, d: seq<Octet>)
    requires |d| == 4
    ensures Four(ZeroByte, Xor(WordOf(d), l)) == Fold(l, d)
  {
    ZeroByteLinear();
    ZeroByteBringsDown();
    XorGroup(l, WordOf(d), {});
    WordSteps(ZeroByte, l, d);
    FoldByZeroByte(l, d);
  }

  // ------------------------------------------------------------------ four lanes

  function Four(f: Word -> Word, l: Word): Word {
    Iterated(f, 4, l)
  }

  /** Combining the partial results of the four strides. */
  function Combined(f: Word -> Word, c0: Word, c1: Word, c2: Word, c3: Word): Word {
    Four(f, Xor(c3, Four(f, Xor(c2, Four(f, Xor(c1, Four(f, c0)))))))
  }

  lemma FourLinear(f: Word -> Word, a: Word, b: Word)
    requires Linear(f)
    ensures Four(f, Xor(a, b)) == Xor(Four(f, a), Four(f, b))
  {
    IteratedLinear(f, 4, a, b);
  }

  /** The first lane takes the next word and becomes the last: the combination takes that word. */
  lemma LaneStep(f: Word -> Word, c0: Word, c1: Word, c2: Word, c3: Word, w: Word)
    requires Linear(f)
    ensures Combined(f, c1, c2, c3, Xor(w, Iterated(f, 16, c0))) == Four(f, Xor(w, Combined(f, c0, c1, c2, c3)))
  {
    var g0 := Four(f, c0);
    var g1 := Four(f, c1);
    var h0, h1 := Four(f, g0), Four(f, Xor(c2, g1));
    var k0, k1 := Four(f, h0), Four(f, Xor(c3, h1));
    FourLinear(f, c1, g0);
    XorGroup(c2, g1, h0);
    FourLinear(f, Xor(c2, g1), h0);
    XorGroup(c3, h1, k0);
    FourLinear(f, Xor(c3, h1), k0);
    assert Combined(f, c0, c1, c2, c3) == Xor(k1, Four(f, k0));
    IteratedAdd(f, 4, 4, c0);
    IteratedAdd(f, 4, 8, c0);
    IteratedAdd(f, 4, 12, c0);
    assert Four(f, k0) == Iterated(f, 16, c0);
    XorGroup(w, Four(f, k0), k1);
    XorGroup(Four(f, k0), k1, k1);
  }

  // ------------------------------------------------------------------ the tables of the strides

  lemma Bytes4(c: Word)
    ensures var hi := Xor(ShiftedLeft(LowByte(ShiftedRight(c, 16)), 16), ShiftedLeft(ShiftedRight(c, 24), 24));
      c == Xor(LowByte(c), Xor(ShiftedLeft(LowByte(ShiftedRight(c, 8)), 8), hi))
  {
    var b1, b2, b3 := ShiftedLeft(LowByte(ShiftedRight(c, 8)), 8), ShiftedLeft(LowByte(ShiftedRight(c, 16)), 16),
                      ShiftedLeft(ShiftedRight(c, 24), 24);
    ByteAt(c, 8);
    ByteAt(c, 16);
    forall i
      ensures i in b3 <==> i in c && i >= 24
    {
      if i in c && i >= 24 {
        assert i - 24 in ShiftedRight(c, 24);
      }
    }
  }

  lemma ByteAt(c: Word, n: nat)
    ensures forall i :: i in ShiftedLeft(LowByte(ShiftedRight(c, n)), n) <==> i in c && n <= i < n + 8
  {
    forall i
      ensures i in ShiftedLeft(LowByte(ShiftedRight(c, n)), n) <==> i in c && n <= i < n + 8
    {
      if i in c && n <= i < n + 8 {
        assert i - n in ShiftedRight(c, n) && i - n in LowByte(ShiftedRight(c, n));
      }
    }
  }

  /** The four tables together are sixteen zero bytes after the word. */
  function Stride(c: Word): Word {
    Xor(Xor(Xor(StrideTable(3, LowByte(c)), StrideTable(2, LowByte(ShiftedRight(c, 8)))),
            StrideTable(1, LowByte(ShiftedRight(c, 16)))),
        StrideTable(0, ShiftedRight(c, 24)))
  }

  lemma StrideIsSixteen(c: Word)
    ensures Stride(c) == Iterated(ZeroByte, 16, c)
  {
    var a, b := LowByte(c), ShiftedLeft(LowByte(ShiftedRight(c, 8)), 8);
    var d, e := ShiftedLeft(LowByte(ShiftedRight(c, 16)), 16), ShiftedLeft(ShiftedRight(c, 24), 24);
    Bytes4(c);
    assert ShiftedLeft(a, 0) == a;
    ZeroByteLinear();
    SumOfFour(ZeroByte, 16, a, b, d, e);
  }

  lemma SumOfFour(f: Word -> Word, n: nat, a: Word, b: Word, c: Word, d: Word)
    requires Linear(f)
    ensures Iterated(f, n, Xor(a, Xor(b, Xor(c, d)))) ==
            Xor(Xor(Xor(Iterated(f, n, a), Iterated(f, n, b)), Iterated(f, n, c)), Iterated(f, n, d))
  {
    IteratedLinear(f, n, a, Xor(b, Xor(c, d)));
    IteratedLinear(f, n, b, Xor(c, d));
    IteratedLinear(f, n, c, d);
    XorGroup(Iterated(f, n, a), Iterated(f, n, b), Xor(Iterated(f, n, c), Iterated(f, n, d)));
    XorGroup(Xor(Iterated(f, n, a), Iterated(f, n, b)), Iterated(f, n, c), Iterated(f, n, d));
  }

  // ------------------------------------------------------------------ the loop

  datatype Lanes = Lanes(c0: Word, c1: Word, c2: Word, c3: Word)

  /** The lanes stand for the checksum state `l`. */
  ghost predicate StandFor(s: Lanes, l: Word) {
    Combined(ZeroByte, s.c0, s.c1, s.c2, s.c3) == l
  }

  /** The word at `p`, which is 4 bytes. */
  function WordAt(data: seq<Octet>, p: nat): Word
    requires p + 4 <= |data|
  {
    WordOf(data[p..p + 4])
  }

  /** STEP4 on the first lane, and the lanes moved on. */
  function Moved(s: Lanes, w: Word): Lanes {
    Lanes(s.c1, s.c2, s.c3, Xor(w, Stride(s.c0)))
  }

  lemma MovedStands(s: Lanes, l: Word, d: seq<Octet>)
    requires StandFor(s, l) && |d| == 4
    ensures StandFor(Moved(s, WordOf(d)), Fold(l, d))
  {
    ZeroByteLinear();
    StrideIsSixteen(s.c0);
    LaneStep(ZeroByte, s.c0, s.c1, s.c2, s.c3, WordOf(d));
    WordFolds(l, d);
  }

  /** The first sixteen bytes are loaded into the lanes. */
  lemma LoadedStands(l: Word, a: seq<Octet>, b: seq<Octet>, c: seq<Octet>, d: seq<Octet>)
    requires |a| == |b| == |c| == |d| == 4
    ensures StandFor(Lanes(Xor(WordOf(a), l), WordOf(b), WordOf(c), WordOf(d)), Fold(l, a + b + c + d))
  {
    WordFolds(l, a);
    WordFolds(Fold(l, a), b);
    WordFolds(Fold(Fold(l, a), b), c);
    WordFolds(Fold(Fold(Fold(l, a), b), c), d);
    FoldAppend(l, a, b);
    FoldAppend(l, a + b, c);
    FoldAppend(l, a + b + c, d);
  }

  lemma FoldTo(l: Word, data: seq<Octet>, p: nat, q: nat)
    requires p <= q <= |data|
    ensures Fold(Fold(l, data[..p]), data[p..q]) == Fold(l, data[..q])
  {
    assert data[..q] == data[..p] + data[p..q];
    FoldAppend(l, data[..p], data[p..q]);
  }

  predicate IsFold(l0: Word, d: seq<Octet>, l: Word) {
    l == Fold(l0, d)
  }

  /** `l` is the state after the first `p` bytes. */
  ghost predicate Reaches(l0: Word, data: seq<Octet>, p: nat, l: Word)
    requires p <= |data|
  {
    forall m {:trigger IsFold(l0, data[..p], m)} | IsFold(l0, data[..p], m) :: l == m
  }

  ghost predicate LanesReach(l0: Word, data: seq<Octet>, p: nat, s: Lanes)
    requires p <= |data|
  {
    forall m {:trigger IsFold(l0, data[..p], m)} | IsFold(l0, data[..p], m) :: StandFor(s, m)
  }

  /** Extend, for a buffer that begins at any address. */
  method Extend(crc: Word, data: seq<Octet>, address: nat) returns (r: Word)
    ensures r == Extended(crc, data)
  {
    var l := Xor(crc, ALL_ONES);
    StartReaches(l, data);
    l := ExtendFrom(l, data, address);
    Finished(crc, data, l);
    r := Xor(l, ALL_ONES);
  }

  /** Single bytes up to an aligned one, strides, and single bytes to the end. */
  method ExtendFrom(l0: Word, data: seq<Octet>, address: nat) returns (l: Word)
    requires Reaches(l0, data, 0, l0)
    ensures Reaches(l0, data, |data|, l)
  {
    var p, e: nat := 0, |data|;
    l := l0;
    var x := (4 - address % 4) % 4;
    if x <= e {
      l := ByteLoop(l0, l, data, p, x);
      p := x;
    }
    if e - p >= 16 {
      l, p := Strides(l0, l, data, p);
    }
    l := ByteLoop(l0, l, data, p, e);
  }

  method Strides(ghost l0: Word, l: Word, data: seq<Octet>, from: nat) returns (r: Word, p: nat)
    requires from + 16 <= |data| && Reaches(l0, data, from, l)
    ensures from <= p <= |data| && Reaches(l0, data, p, r)
  {
    var s := LoadLanes(l0, l, data, from);
    s, p := SwathLoop(l0, s, data, from + 16);
    s, p := WordLoop(l0, s, data, p);
    r := Combine(l0, s, data, p);
  }

  /** One 16-byte swath at a time. */
  method SwathLoop(ghost l0: Word, lanes: Lanes, data: seq<Octet>, from: nat) returns (s: Lanes, p: nat)
    requires from <= |data| && LanesReach(l0, data, from, lanes)
    ensures from <= p <= |data| && LanesReach(l0, data, p, s)
  {
    hide *;
    s, p := lanes, from;
    while |data| - p >= 16
      invariant from <= p <= |data| && LanesReach(l0, data, p, s)
    {
      s := Swath(l0, s, data, p);
      p := p + 16;
    }
  }

  /** One word at a time as far as possible. */
  method WordLoop(ghost l0: Word, lanes: Lanes, data: seq<Octet>, from: nat) returns (s: Lanes, p: nat)
    requires from <= |data| && LanesReach(l0, data, from, lanes)
    ensures from <= p <= |data| && LanesReach(l0, data, p, s)
  {
    hide *;
    s, p := lanes, from;
    while |data| - p >= 4
      invariant from <= p <= |data| && LanesReach(l0, data, p, s)
    {
      s := MoveOn(l0, s, data, p);
      p := p + 4;
    }
  }

  lemma StartReaches(l0: Word, data: seq<Octet>)
    ensures Reaches(l0, data, 0, l0)
  {
    assert data[..0] == [];
  }

  lemma Finished(crc: Word, data: seq<Octet>, l: Word)
    requires Reaches(Xor(crc, ALL_ONES), data, |data|, l)
    ensures Xor(l, ALL_ONES) == Extended(crc, data)
  {
    assert data[..|data|] == data;
    assert IsFold(Xor(crc, ALL_ONES), data[..|data|], Fold(Xor(crc, ALL_ONES), data));
  }

  method LoadLanes(ghost l0: Word, l: Word, data: seq<Octet>, p: nat) returns (s: Lanes)
    requires p + 16 <= |data| && Reaches(l0, data, p, l)
    ensures LanesReach(l0, data, p + 16, s)
  {
    s := Lanes(Xor(WordAt(data, p), l), WordAt(data, p + 4), WordAt(data, p + 8), WordAt(data, p + 12));
    LoadReaches(l0, l, data, p, data[p..p + 4], data[p + 4..p + 8], data[p + 8..p + 12], data[p + 12..p + 16]);
  }

  lemma LoadReaches(l0: Word, l: Word, data: seq<Octet>, p: nat,
                    a: seq<Octet>, b: seq<Octet>, c: seq<Octet>, d: seq<Octet>)
    requires p + 16 <= |data| && Reaches(l0, data, p, l)
    requires a == data[p..p + 4] && b == data[p + 4..p + 8] && c == data[p + 8..p + 12] && d == data[p + 12..p + 16]
    ensures LanesReach(l0, data, p + 16, Lanes(Xor(WordOf(a), l), WordOf(b), WordOf(c), WordOf(d)))
  {
    assert data[p..p + 16] == a + b + c + d;
    var s := Lanes(Xor(WordOf(a), l), WordOf(b), WordOf(c), WordOf(d));
    forall m {:trigger IsFold(l0, data[..p + 16], m)} | IsFold(l0, data[..p + 16], m)
      ensures StandFor(s, m)
    {
      FoldOn(l0, data, p, p + 16, l, m);
      LoadedReaches(l, a, b, c, d, m);
    }
  }

  lemma FoldOn(l0: Word, data: seq<Octet>, p: nat, q: nat, l: Word, m: Word)
    requires p <= q <= |data| && Reaches(l0, data, p, l) && IsFold(l0, data[..q], m)
    ensures IsFold(l, data[p..q], m)
  {
    assert IsFold(l0, data[..p], Fold(l0, data[..p]));
    FoldTo(l0, data, p, q);
  }

  lemma LoadedReaches(l: Word, a: seq<Octet>, b: seq<Octet>, c: seq<Octet>, d: seq<Octet>, m: Word)
    requires |a| == |b| == |c| == |d| == 4 && IsFold(l, a + b + c + d, m)
    ensures StandFor(Lanes(Xor(WordOf(a), l), WordOf(b), WordOf(c), WordOf(d)), m)
  {
    LoadedStands(l, a, b, c, d);
  }

  /** STEP4(0), and every lane takes the place of the one before. */
  method MoveOn(ghost l0: Word, s: Lanes, data: seq<Octet>, p: nat) returns (t: Lanes)
    requires p + 4 <= |data| && LanesReach(l0, data, p, s)
    ensures LanesReach(l0, data, p + 4, t)
  {
    MovedReaches(l0, s, data, p);
    t := Moved(s, WordAt(data, p));
  }

  lemma MovedReaches(l0: Word, s: Lanes, data: seq<Octet>, p: nat)
    requires p + 4 <= |data| && LanesReach(l0, data, p, s)
    ensures LanesReach(l0, data, p + 4, Moved(s, WordAt(data, p)))
  {
    assert IsFold(l0, data[..p], Fold(l0, data[..p]));
    MovedStands(s, Fold(l0, data[..p]), data[p..p + 4]);
    FoldTo(l0, data, p, p + 4);
  }

  /** STEP16: a step on every lane, which is moving on four times. */
  method Swath(ghost l0: Word, s: Lanes, data: seq<Octet>, p: nat) returns (t: Lanes)
    requires p + 16 <= |data| && LanesReach(l0, data, p, s)
    ensures LanesReach(l0, data, p + 16, t)
  {
    MovedReaches(l0, s, data, p);
    ghost var s1 := Moved(s, WordAt(data, p));
    MovedReaches(l0, s1, data, p + 4);
    ghost var s2 := Moved(s1, WordAt(data, p + 4));
    MovedReaches(l0, s2, data, p + 8);
    ghost var s3 := Moved(s2, WordAt(data, p + 8));
    MovedReaches(l0, s3, data, p + 12);
    t := s.(c0 := Xor(WordAt(data, p), Stride(s.c0)));
    t := t.(c1 := Xor(WordAt(data, p + 4), Stride(t.c1)));
    t := t.(c2 := Xor(WordAt(data, p + 8), Stride(t.c2)));
    t := t.(c3 := Xor(WordAt(data, p + 12), Stride(t.c3)));
  }

  /** STEP1 from `from` to `to`. */
  method ByteLoop(ghost l0: Word, l: Word, data: seq<Octet>, from: nat, to: nat) returns (r: Word)
    requires from <= to <= |data| && Reaches(l0, data, from, l)
    ensures Reaches(l0, data, to, r)
  {
    r := l;
    var p := from;
    while p != to
      invariant from <= p <= to && Reaches(l0, data, p, r)
    {
      ByteReaches(l0, r, data, p);
      r := Xor(ByteTable(Xor(LowByte(r), data[p])), ShiftedRight(r, 8));
      p := p + 1;
    }
  }

  lemma ByteReaches(l0: Word, l: Word, data: seq<Octet>, p: nat)
    requires p < |data| && Reaches(l0, data, p, l)
    ensures Reaches(l0, data, p + 1, ByteStep(l, data[p]))
  {
    assert IsFold(l0, data[..p], Fold(l0, data[..p]));
    FoldTo(l0, data, p, p + 1);
    OneByte(l, data[p..p + 1]);
  }

  lemma OneByte(l: Word, d: seq<Octet>)
    requires |d| == 1
    ensures Fold(l, d) == ByteStep(l, d[0])
  {
    assert d[1..] == [];
  }

  /** STEP4W on every lane, from zero. */
  method Combine(ghost l0: Word, s: Lanes, ghost data: seq<Octet>, ghost p: nat) returns (l: Word)
    requires p <= |data| && LanesReach(l0, data, p, s)
    ensures Reaches(l0, data, p, l)
  {
    XorGroup(s.c0, {}, {});
    l := DivideWord(s.c0, {});
    l := DivideWord(s.c1, l);
    l := DivideWord(s.c2, l);
    l := DivideWord(s.c3, l);
  }

  method DivideWord(word: Word, l: Word) returns (w: Word)
    ensures w == Four(ZeroByte, Xor(word, l))
  {
    w := Xor(word, l);
    for i := 0 to 4
      invariant w == Iterated(ZeroByte, i, Xor(word, l))
    {
      XorGroup(ShiftedRight(w, 8), ByteTable(LowByte(w)), {});
      w := Xor(ShiftedRight(w, 8), ByteTable(LowByte(w)));
    }
  }
}
