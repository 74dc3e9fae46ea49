// Fixed-width little-endian numbers (util/coding.h) and the mask for stored checksums (util/crc32c.h).

module Coding {
  import opened Keys

  const TWO_32: nat := 0x1_0000_0000
  type uint32 = n: nat | n < 0x1_0000_0000

  const TWO_64: nat := 0x1_0000_0000_0000_0000
  type uint64 = n: nat | n < 0x1_0000_0000_0000_0000

  lemma Regroup(a: Bytes, b: Bytes, rest: Bytes)
    ensures (a + b) + rest == a + (b + rest)
  {
  }

  /** The i-th byte of a number, least significant first. */
  function ByteOf(n: nat, i: nat): byte {
    (if i == 0 then n % 256
     else if i == 1 then n / 0x100 % 256
     else if i == 2 then n / 0x1_0000 % 256
     else n / 0x100_0000 % 256) as byte
  }

  /** The first `width` bytes of a number, at most four. */
  function Fixed(width: nat, n: nat): (r: Bytes)
    ensures |r| == width
  {
    seq(width, i => if i < 0 then 0 else ByteOf(n, i))
  }

  function EncodeFixed32(n: uint32): (r: Bytes)
    ensures |r| == 4
  {
    Fixed(4, n)
  }

  function DecodeFixed16(b: Bytes): nat
    requires |b| >= 2
  {
    b[0] as nat + b[1] as nat * 0x100
  }

  function DecodeFixed32(b: Bytes): uint32
    requires |b| >= 4
  {
    b[0] as nat + b[1] as nat * 0x100 + b[2] as nat * 0x1_0000 + b[3] as nat * 0x100_0000
  }

  lemma Fixed16RoundTrip(n: nat, b: Bytes)
    requires n < 0x1_0000 && |b| >= 2 && b[..2] == Fixed(2, n)
    ensures DecodeFixed16(b) == n
  {
    assert b[0] == b[..2][0] && b[1] == b[..2][1];
  }

  lemma Fixed32RoundTrip(n: uint32, b: Bytes)
    requires |b| >= 4 && b[..4] == EncodeFixed32(n)
    ensures DecodeFixed32(b) == n
  {
    assert b[0] == b[..4][0] && b[1] == b[..4][1] && b[2] == b[..4][2] && b[3] == b[..4][3];
    var q, p := n / 0x100, n / 0x1_0000;
    assert n / 0x1_0000 == q / 0x100;
    assert n / 0x100_0000 == p / 0x100;
  }

  const MASK_DELTA: nat := 0xa282_ead8

  /** Rotates right by 15 bits and adds a constant, modulo 2^32. */
  function Mask(crc: uint32): uint32 {
    (crc / 0x8000 + crc % 0x8000 * 0x2_0000 + MASK_DELTA) % TWO_32
  }

  /** Subtracts the constant, modulo 2^32, and rotates left by 15 bits. */
  function Unmask(masked: uint32): uint32 {
    var rot := (masked - MASK_DELTA) % TWO_32;
    rot / 0x2_0000 + rot % 0x2_0000 * 0x8000
  }

  lemma UnmaskUndoesMask(crc: uint32)
    ensures Unmask(Mask(crc)) == crc
  {
    var high, low := crc / 0x8000, crc % 0x8000;
    var rotated := high + low * 0x2_0000;
    assert rotated < TWO_32;
    assert (Mask(crc) - MASK_DELTA) % TWO_32 == rotated;
    assert rotated / 0x2_0000 == low && rotated % 0x2_0000 == high;
  }

  /** Stored checksums: the low 15 bits move to the top, and the constant is added. */
  lemma MaskAnswers()
    ensures Mask(0) == 0xa282_ead8 && Mask(0x8000) == 0xa282_ead9 && Mask(1) == 0xa284_ead8
    ensures Mask(0x7fff) == 0xa280_ead8 && EncodeFixed32(0x0403_0201) == [1, 2, 3, 4]
  {
  }
}
