// The bits of a number.

module Bits {

  function Power(w: nat): (r: nat)
    ensures r > 0
  {
    if w == 0 then 1 else 2 * Power(w - 1)
  }

  predicate HasBit(n: nat, i: nat)
    decreases i
  {
    if i == 0 then n % 2 == 1 else HasBit(n / 2, i - 1)
  }

  /** A number of `w` bits with bit `i` set. */
  function WithBit(n: nat, i: nat, ghost w: nat): (r: nat)
    requires i < w && n < Power(w)
    ensures r < Power(w)
    decreases i
  {
    var half, low := n / 2, n % 2;
    assert n == 2 * half + low && half < Power(w - 1);
    if i == 0 then 2 * half + 1 else low + 2 * WithBit(half, i - 1, w - 1)
  }

  lemma {:induction false} WithBitHas(n: nat, i: nat, w: nat, j: nat)
    requires i < w && n < Power(w)
    ensures HasBit(WithBit(n, i, w), j) <==> i == j || HasBit(n, j)
    decreases i
  {
    var r := WithBit(n, i, w);
    if i > 0 && j > 0 {
      WithBitHas(n / 2, i - 1, w - 1, j - 1);
      assert r / 2 == WithBit(n / 2, i - 1, w - 1);
    } else if j > 0 {
      assert r / 2 == n / 2;
    }
  }

  /** A number without bits from `k` on is below 2^k. */
  lemma {:induction false} LowBits(n: nat, w: nat, k: nat)
    requires n < Power(w) && k <= w && forall j | k <= j < w :: !HasBit(n, j)
    ensures n < Power(k)
    decreases k
  {
    if w > 0 {
      assert n == 2 * (n / 2) + n % 2 && n / 2 < Power(w - 1);
      if k == 0 {
        assert !HasBit(n, 0);
        forall j | 0 <= j < w - 1
          ensures !HasBit(n / 2, j)
        {
          assert !HasBit(n, j + 1);
        }
        NoBits(n / 2, w - 1);
      } else {
        forall j | k - 1 <= j < w - 1
          ensures !HasBit(n / 2, j)
        {
          assert !HasBit(n, j + 1);
        }
        LowBits(n / 2, w - 1, k - 1);
      }
    }
  }

  lemma {:induction false} NoBits(n: nat, w: nat)
    requires n < Power(w) && forall j | 0 <= j < w :: !HasBit(n, j)
    ensures n == 0
    decreases w
  {
    if w > 0 {
      assert n == 2 * (n / 2) + n % 2 && n / 2 < Power(w - 1);
      assert !HasBit(n, 0);
      forall j | 0 <= j < w - 1
        ensures !HasBit(n / 2, j)
      {
        assert !HasBit(n, j + 1);
      }
      NoBits(n / 2, w - 1);
    }
  }

  /** All bits below `k` are set. */
  ghost predicate AllSet(n: nat, k: nat) {
    forall j | 0 <= j < k :: HasBit(n, j)
  }

  /** 2^k - 1 has all the bits below `k`, and no other number below 2^k does. */
  lemma {:induction false} AllBits(n: nat, k: nat)
    requires n < Power(k) && AllSet(n, k)
    ensures n == Power(k) - 1
    decreases k
  {
    if k > 0 {
      var half := n / 2;
      assert n == 2 * half + n % 2 && half < Power(k - 1) && HasBit(n, 0);
      forall j | 0 <= j < k - 1
        ensures HasBit(half, j)
      {
        assert HasBit(n, j + 1);
      }
      AllBits(half, k - 1);
    }
  }

  lemma {:induction false} OnesHaveBits(n: nat, k: nat, j: nat)
    requires n == Power(k) - 1 && j < k
    ensures HasBit(n, j)
    decreases k
  {
    var half, more := n / 2, Power(k - 1);
    assert n == 2 * (more - 1) + 1;
    if j > 0 {
      OnesHaveBits(half, k - 1, j - 1);
    }
  }

  function ShiftRight(n: nat, k: nat): nat
    decreases k
  {
    if k == 0 then n else ShiftRight(n, k - 1) / 2
  }

  /** Shifting out the high bits of all ones leaves fewer ones. */
  lemma {:induction false} ShiftOnes(w: nat, k: nat)
    requires k <= w
    ensures ShiftRight(Power(w) - 1, k) == Power(w - k) - 1
    decreases k
  {
    if k > 0 {
      ShiftOnes(w, k - 1);
      var m := Power(w - k);
      assert ShiftRight(Power(w) - 1, k - 1) == 2 * m - 1;
    }
  }

  /** Whether a word without bits from `n` on has all the bits below. */
  lemma AllBelow(word: nat, w: nat, n: nat)
    requires word < Power(w) && n <= w && forall j | n <= j < w :: !HasBit(word, j)
    ensures word == Power(n) - 1 <==> AllSet(word, n)
  {
    LowBits(word, w, n);
    if word == Power(n) - 1 {
      forall j | 0 <= j < n
        ensures HasBit(word, j)
      {
        OnesHaveBits(word, n, j);
      }
    } else if AllSet(word, n) {
      AllBits(word, n);
    }
  }
}
