// The built-in Bloom filter policy (util/bloom.cc), over any hash function.

module Blooms {
  import opened Bits
  import opened Keys
  import opened Coding
  import opened FilterBlocks

  type Hash = Bytes -> uint32

  // ------------------------------------------------------------------ bits

  function Or(b: byte, i: nat): byte
    requires i < 8
  {
    WithBit(b as nat, i, 8) as byte
  }

  predicate BitSet(a: Bytes, p: nat)
    requires p < 8 * |a|
  {
    HasBit(a[p / 8] as nat, p % 8)
  }

  function SetBit(a: Bytes, p: nat): (r: Bytes)
    requires p < 8 * |a|
    ensures |r| == |a|
  {
    a[p / 8 := Or(a[p / 8], p % 8)]
  }

  /** Every bit of the first array is set in the second. */
  ghost predicate Within(a: Bytes, b: Bytes) {
    |a| == |b| && forall p {:trigger BitSet(a, p)} {:trigger BitSet(b, p)} | 0 <= p < 8 * |a| && BitSet(a, p) ::
      BitSet(b, p)
  }

  lemma SetBitSets(a: Bytes, p: nat)
    requires p < 8 * |a|
    ensures BitSet(SetBit(a, p), p) && Within(a, SetBit(a, p))
  {
    WithBitHas(a[p / 8] as nat, p % 8, 8, p % 8);
    forall q | 0 <= q < 8 * |a| && BitSet(a, q)
      ensures BitSet(SetBit(a, p), q)
    {
      WithBitHas(a[p / 8] as nat, p % 8, 8, q % 8);
    }
  }

  // ------------------------------------------------------------------ probes

  function Rotated(h: uint32): uint32 {
    h / 0x2_0000 + h % 0x2_0000 * 0x8000
  }

  function Plus(h: uint32, delta: uint32): uint32 {
    (h + delta) % TWO_32
  }

  /** The bit a hash value selects. */
  function Position(h: uint32, bits: nat): (p: nat)
    requires bits > 0
    ensures p < bits
  {
    h % bits
  }

  function SetProbes(a: Bytes, h: uint32, delta: uint32, k: nat): (r: Bytes)
    requires a != []
    ensures |r| == |a|
    decreases k
  {
    if k == 0 then a else SetProbes(SetBit(a, Position(h, 8 * |a|)), Plus(h, delta), delta, k - 1)
  }

  predicate ProbesSet(a: Bytes, h: uint32, delta: uint32, k: nat)
    requires a != []
    decreases k
  {
    k == 0 || (BitSet(a, Position(h, 8 * |a|)) && ProbesSet(a, Plus(h, delta), delta, k - 1))
  }

  lemma {:induction false} ProbesKeepBits(a: Bytes, h: uint32, delta: uint32, k: nat)
    requires a != []
    ensures Within(a, SetProbes(a, h, delta, k))
    decreases k
  {
    if k > 0 {
      SetBitSets(a, Position(h, 8 * |a|));
      ProbesKeepBits(SetBit(a, Position(h, 8 * |a|)), Plus(h, delta), delta, k - 1);
    }
  }

  lemma {:induction false} MoreBitsKeepProbes(a: Bytes, b: Bytes, h: uint32, delta: uint32, k: nat)
    requires a != [] && Within(a, b) && ProbesSet(a, h, delta, k)
    ensures ProbesSet(b, h, delta, k)
    decreases k
  {
    if k > 0 {
      MoreBitsKeepProbes(a, b, Plus(h, delta), delta, k - 1);
    }
  }

  lemma {:induction false} SetProbesSet(a: Bytes, h: uint32, delta: uint32, k: nat)
    requires a != []
    ensures ProbesSet(SetProbes(a, h, delta, k), h, delta, k)
    decreases k
  {
    if k > 0 {
      var b := SetBit(a, Position(h, 8 * |a|));
      SetBitSets(a, Position(h, 8 * |a|));
      SetProbesSet(b, Plus(h, delta), delta, k - 1);
      ProbesKeepBits(b, Plus(h, delta), delta, k - 1);
    }
  }

  function AddKeys(hash: Hash, a: Bytes, keys: seq<Bytes>, k: nat): (r: Bytes)
    requires a != []
    ensures |r| == |a|
  {
    if keys == [] then a
    else
      var h := hash(keys[|keys| - 1]);
      SetProbes(AddKeys(hash, a, keys[..|keys| - 1], k), h, Rotated(h), k)
  }

  lemma {:induction false} AddedKeysSet(hash: Hash, a: Bytes, keys: seq<Bytes>, k: nat, key: Bytes)
    requires a != [] && key in keys
    ensures ProbesSet(AddKeys(hash, a, keys, k), hash(key), Rotated(hash(key)), k)
    decreases |keys|
  {
    var n := |keys| - 1;
    var b, h := AddKeys(hash, a, keys[..n], k), hash(keys[n]);
    if key == keys[n] {
      SetProbesSet(b, h, Rotated(h), k);
    } else {
      AddedKeysSet(hash, a, keys[..n], k, key);
      ProbesKeepBits(b, h, Rotated(h), k);
      MoreBitsKeepProbes(b, SetProbes(b, h, Rotated(h), k), hash(key), Rotated(hash(key)), k);
    }
  }

  // ------------------------------------------------------------------ the policy

  /** bitsPerKey * 0.69, rounded down and kept between 1 and 30. */
  function Probes(bitsPerKey: nat): (k: nat)
    ensures 1 <= k <= 30
  {
    var k := bitsPerKey * 69 / 100;
    if k < 1 then 1 else if k > 30 then 30 else k
  }

  function FilterSize(n: nat, bitsPerKey: nat): (bytes: nat)
    ensures bytes >= 8
  {
    var bits := n * bitsPerKey;
    ((if bits < 64 then 64 else bits) + 7) / 8
  }

  /** The bit array, then the number of probes. */
  function BloomFilter(hash: Hash, bitsPerKey: nat, keys: seq<Bytes>): Bytes {
    var k := Probes(bitsPerKey);
    AddKeys(hash, seq(FilterSize(|keys|, bitsPerKey), _ => 0), keys, k) + [k as byte]
  }

  method CreateFilter(hash: Hash, bitsPerKey: nat, keys: seq<Bytes>) returns (filter: Bytes)
    ensures filter == BloomFilter(hash, bitsPerKey, keys)
  {
    var k := Probes(bitsPerKey);
    var bytes := FilterSize(|keys|, bitsPerKey);
    var bits := bytes * 8;
    ghost var zeros: Bytes := seq(bytes, _ => 0);
    var a: Bytes := seq(bytes, _ => 0);
    for i := 0 to |keys|
      invariant a == AddKeys(hash, zeros, keys[..i], k)
    {
      assert keys[..i + 1][..i] == keys[..i];
      var h := hash(keys[i]);
      var delta := Rotated(h);
      for j := 0 to k
        invariant |a| == bytes
        invariant SetProbes(a, h, delta, k - j) == AddKeys(hash, zeros, keys[..i + 1], k)
      {
        var bitpos := Position(h, bits);
        a := a[bitpos / 8 := Or(a[bitpos / 8], bitpos % 8)];
        h := Plus(h, delta);
      }
    }
    assert keys[..|keys|] == keys;
    return a + [k as byte];
  }

  predicate BloomMatch(hash: Hash, key: Bytes, filter: Bytes) {
    var len := |filter|;
    len >= 2 &&
    (filter[len - 1] > 30 || ProbesSet(filter[..len - 1], hash(key), Rotated(hash(key)), filter[len - 1] as nat))
  }

  /** A filter with more than 30 probes is of a kind still to come, and matches. */
  method KeyMayMatch(hash: Hash, key: Bytes, filter: Bytes) returns (r: bool)
    ensures r == BloomMatch(hash, key, filter)
  {
    var len := |filter|;
    if len < 2 {
      return false;
    }
    var a, k := filter[..len - 1], filter[len - 1] as nat;
    var bits := (len - 1) * 8;
    if k > 30 {
      return true;
    }
    var h := hash(key);
    var delta := Rotated(h);
    for j := 0 to k
      invariant ProbesSet(a, h, delta, k - j) <==> BloomMatch(hash, key, filter)
    {
      var bitpos := Position(h, bits);
      if !BitSet(a, bitpos) {
        return false;
      }
      h := Plus(h, delta);
    }
    return true;
  }

  function BloomPolicy(hash: Hash, bitsPerKey: nat): FilterPolicy {
    FilterPolicy((keys: seq<Bytes>) => BloomFilter(hash, bitsPerKey, keys),
                 (key: Bytes, filter: Bytes) => BloomMatch(hash, key, filter))
  }

  /** Whatever the hash function and the bits per key, a Bloom filter matches every key it was made from. */
  lemma BloomHasNoFalseNegatives(hash: Hash, bitsPerKey: nat)
    ensures NoFalseNegatives(BloomPolicy(hash, bitsPerKey))
  {
    var policy := BloomPolicy(hash, bitsPerKey);
    forall keys: seq<Bytes>, key {:trigger Matches(policy, keys, key)} | key in keys
      ensures Matches(policy, keys, key)
    {
      var k := Probes(bitsPerKey);
      var zeros: Bytes := seq(FilterSize(|keys|, bitsPerKey), _ => 0);
      var a := AddKeys(hash, zeros, keys, k);
      AddedKeysSet(hash, zeros, keys, k, key);
      assert (a + [k as byte])[..|a|] == a;
    }
  }

  // ------------------------------------------------------------------ which bits are set

  /** The `j`-th bit position a hash value selects, the delta being the hash rotated right by 17 bits. */
  function Probe(h: nat, delta: nat, bits: nat, j: nat): nat
    requires bits > 0
  {
    (h + j * delta) % 0x1_0000_0000 % bits
  }

  lemma ProbeFirst(h: uint32, delta: uint32, bits: nat, j: nat)
    requires bits > 0
    ensures Probe(h, delta, bits, 0) == Position(h, bits)
    ensures Probe(Plus(h, delta), delta, bits, j) == Probe(h, delta, bits, j + 1)
  {
    var product := j * delta;
    OneMore(j, delta);
    WrapInside(h + delta, product);
  }

  lemma OneMore(j: nat, delta: nat)
    ensures (j + 1) * delta == j * delta + delta
  {
  }

  lemma WrapInside(a: nat, b: nat)
    ensures (a % 0x1_0000_0000 + b) % 0x1_0000_0000 == (a + b) % 0x1_0000_0000
  {
  }

  lemma SetBitExact(a: Bytes, p: nat, q: nat)
    requires p < 8 * |a| && q < 8 * |a|
    ensures BitSet(SetBit(a, p), q) <==> p == q || BitSet(a, q)
  {
    WithBitHas(a[p / 8] as nat, p % 8, 8, q % 8);
    assert p == 8 * (p / 8) + p % 8 && q == 8 * (q / 8) + q % 8;
  }

  ghost predicate ProbedBy(h: uint32, delta: uint32, bits: nat, k: nat, q: nat)
    requires bits > 0
  {
    exists j: nat :: j < k && Probe(h, delta, bits, j) == q
  }

  lemma ProbedOn(h: uint32, delta: uint32, bits: nat, k: nat, q: nat)
    requires bits > 0 && k > 0
    ensures ProbedBy(h, delta, bits, k, q) <==>
              Position(h, bits) == q || ProbedBy(Plus(h, delta), delta, bits, k - 1, q)
  {
    hide Probe;
    ProbeFirst(h, delta, bits, 0);
    if j: nat :| j < k && Probe(h, delta, bits, j) == q {
      if j > 0 {
        ProbeFirst(h, delta, bits, j - 1);
        assert Probe(Plus(h, delta), delta, bits, j - 1) == q;
      }
    }
    if j: nat :| j < k - 1 && Probe(Plus(h, delta), delta, bits, j) == q {
      ProbeFirst(h, delta, bits, j);
      assert Probe(h, delta, bits, j + 1) == q;
    }
    if Position(h, bits) == q {
      assert Probe(h, delta, bits, 0) == q;
    }
  }

  lemma {:induction false} SetProbesExact(a: Bytes, h: uint32, delta: uint32, k: nat, q: nat)
    requires a != [] && q < 8 * |a|
    ensures BitSet(SetProbes(a, h, delta, k), q) <==> BitSet(a, q) || ProbedBy(h, delta, 8 * |a|, k, q)
    decreases k
  {
    hide BitSet, SetBit;
    if k > 0 {
      ProbedOn(h, delta, 8 * |a|, k, q);
      SetBitExact(a, Position(h, 8 * |a|), q);
      SetProbesExact(SetBit(a, Position(h, 8 * |a|)), Plus(h, delta), delta, k - 1, q);
    }
  }

  lemma {:induction false} ProbesSetExact(a: Bytes, h: uint32, delta: uint32, k: nat)
    requires a != []
    ensures ProbesSet(a, h, delta, k) <==>
              forall q: nat | q < 8 * |a| && ProbedBy(h, delta, 8 * |a|, k, q) :: BitSet(a, q)
    decreases k
  {
    hide BitSet, Probe;
    if k > 0 {
      ProbesSetExact(a, Plus(h, delta), delta, k - 1);
      forall q: nat
        ensures ProbedBy(h, delta, 8 * |a|, k, q) <==>
                  Position(h, 8 * |a|) == q || ProbedBy(Plus(h, delta), delta, 8 * |a|, k - 1, q)
      {
        ProbedOn(h, delta, 8 * |a|, k, q);
      }
      hide ProbedBy;
    }
  }

  /** A key selects the bit. */
  ghost predicate Selects(hash: Hash, keys: seq<Bytes>, bits: nat, k: nat, q: nat)
    requires bits > 0
  {
    exists key :: key in keys && ProbedBy(hash(key), Rotated(hash(key)), bits, k, q)
  }

  lemma {:induction false} AddKeysExact(hash: Hash, a: Bytes, keys: seq<Bytes>, k: nat, q: nat)
    requires a != [] && q < 8 * |a|
    ensures BitSet(AddKeys(hash, a, keys, k), q) <==> BitSet(a, q) || Selects(hash, keys, 8 * |a|, k, q)
    decreases |keys|
  {
    hide BitSet, ProbedBy, SetProbes;
    if keys != [] {
      var front, last := keys[..|keys| - 1], keys[|keys| - 1];
      AddKeysExact(hash, a, front, k, q);
      SetProbesExact(AddKeys(hash, a, front, k), hash(last), Rotated(hash(last)), k, q);
      assert forall key :: key in keys <==> key in front || key == last;
    }
  }

  lemma NoBitSet(n: nat, q: nat)
    requires q < 8 * n
    ensures !BitSet(seq(n, _ => 0), q)
  {
    Zeroes(q % 8);
  }

  lemma {:induction false} Zeroes(i: nat)
    ensures !HasBit(0, i)
  {
    if i > 0 {
      Zeroes(i - 1);
    }
  }

  /** Every bit that `key` selects is selected by one of the keys. */
  ghost predicate AllSelected(hash: Hash, keys: seq<Bytes>, key: Bytes, bits: nat, k: nat)
    requires bits > 0
  {
    forall q: nat | q < bits && ProbedBy(hash(key), Rotated(hash(key)), bits, k, q) :: Selects(hash, keys, bits, k, q)
  }

  lemma ProbeCounts()
    ensures Probes(1) == 1 && Probes(10) == 6 && Probes(43) == 29 && Probes(44) == 30 && Probes(100) == 30
    ensures Rotated(0x2_0000) == 1 && Rotated(1) == 0x8000 && Rotated(0x8000_0001) == 0xc000
  {
  }

  /** A filter of at least 8 bytes and, for k the bits per key times 0.69 between 1 and 30, k probes per key: it
      matches a key exactly if every bit the key selects is selected by some key it was made from. */
  lemma BloomExact(hash: Hash, bitsPerKey: nat, keys: seq<Bytes>, key: Bytes)
    ensures var filter, k := BloomFilter(hash, bitsPerKey, keys), Probes(bitsPerKey);
      |filter| >= 9 && filter[|filter| - 1] as nat == k && 8 * (|filter| - 1) >= |keys| * bitsPerKey &&
      (BloomMatch(hash, key, filter) <==> AllSelected(hash, keys, key, 8 * (|filter| - 1), k))
  {
    var k, n := Probes(bitsPerKey), FilterSize(|keys|, bitsPerKey);
    var zeros: Bytes := seq(n, _ => 0);
    var a := AddKeys(hash, zeros, keys, k);
    hide BitSet, Probe, Probes, FilterSize, AddKeys;
    assert (a + [k as byte])[..n] == a;
    ProbesSetExact(a, hash(key), Rotated(hash(key)), k);
    forall q: nat | q < 8 * n
      ensures BitSet(a, q) <==> Selects(hash, keys, 8 * n, k, q)
    {
      AddKeysExact(hash, zeros, keys, k, q);
      NoBitSet(n, q);
    }
    hide ProbedBy, Selects;
    EnoughBits(|keys|, bitsPerKey);
  }

  lemma EnoughBits(n: nat, bitsPerKey: nat)
    ensures 8 * FilterSize(n, bitsPerKey) >= n * bitsPerKey && FilterSize(n, bitsPerKey) >= 8
  {
  }
}
