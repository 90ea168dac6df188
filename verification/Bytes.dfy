/** Byte strings, fixed-size identifiers and big-endian integers shared by all components. */
module Bytes {

  datatype Option<+T> = None | Some(value: T)

  datatype Result<+T, +E> = Ok(value: T) | Err(error: E)

  type byte = x: int | 0 <= x < 256

  type Bytes12 = s: seq<byte> | |s| == 12 witness Zeros(12)
  type Bytes16 = s: seq<byte> | |s| == 16 witness Zeros(16)
  type Bytes32 = s: seq<byte> | |s| == 32 witness Zeros(32)

  const ZERO32: Bytes32 := Zeros(32)

  const U16_LIMIT: nat := 0x1_0000
  const U32_LIMIT: nat := 0x1_0000_0000
  const U64_MAX: nat := 0xFFFF_FFFF_FFFF_FFFF

  function Zeros(n: nat): (s: seq<byte>)
    ensures |s| == n
    ensures forall i :: 0 <= i < n ==> s[i] == 0
  {
    seq(n, i => 0)
  }

  function Min(a: int, b: int): int {
    if a <= b then a else b
  }

  /** `a.saturating_sub(b)` on an unsigned machine word. */
  function SatSub(a: nat, b: nat): nat {
    if a < b then 0 else a - b
  }

  /** The low `width` bytes of `n`, most significant first. */
  function BigEndian(n: nat, width: nat): (s: seq<byte>)
    ensures |s| == width
    decreases width
  {
    if width == 0 then [] else BigEndian(n / 0x100, width - 1) + [n % 0x100]
  }

  function FromBigEndian(s: seq<byte>): nat {
    if s == [] then 0 else
    var last: nat := s[|s| - 1];
    FromBigEndian(s[..|s| - 1]) * 0x100 + last
  }

  /** Number of values of `width` bytes. */
  function Pow256(width: nat): nat {
    if width == 0 then 1 else 0x100 * Pow256(width - 1)
  }

  lemma {:induction false} BigEndianRoundTrip(n: nat, width: nat)
    requires n < Pow256(width)
    ensures FromBigEndian(BigEndian(n, width)) == n
    decreases width
  {
    if width != 0 {
      BigEndianRoundTrip(n / 0x100, width - 1);
      assert BigEndian(n, width)[..width - 1] == BigEndian(n / 0x100, width - 1);
    }
  }

  lemma {:induction false} FromBigEndianBound(s: seq<byte>)
    ensures FromBigEndian(s) < Pow256(|s|)
  {
    if s != [] {
      FromBigEndianBound(s[..|s| - 1]);
    }
  }

  lemma {:induction false} FromZeros(n: nat)
    ensures FromBigEndian(Zeros(n)) == 0
  {
    if n > 0 {
      FromZeros(n - 1);
      assert Zeros(n)[..n - 1] == Zeros(n - 1);
    }
  }

  lemma Pow256Values()
    ensures Pow256(2) == U16_LIMIT && Pow256(4) == U32_LIMIT
  {
    assert Pow256(0) == 1;
    assert Pow256(1) == 0x100;
    assert Pow256(2) == 0x100 * Pow256(1);
    assert Pow256(3) == 0x100 * Pow256(2);
  }

  lemma {:induction false} FromBigEndianRoundTrip(s: seq<byte>)
    ensures BigEndian(FromBigEndian(s), |s|) == s
  {
    if s != [] {
      var front, last: nat := s[..|s| - 1], s[|s| - 1];
      FromBigEndianRoundTrip(front);
      assert FromBigEndian(s) / 0x100 == FromBigEndian(front) && FromBigEndian(s) % 0x100 == last;
      assert front + [last] == s;
    }
  }

  /** `(n as u16).to_be_bytes()` */
  function U16(n: nat): (s: seq<byte>)
    ensures |s| == 2
  {
    BigEndian(n, 2)
  }

  function FromU16(s: seq<byte>): (n: nat)
    requires |s| == 2
    ensures n < U16_LIMIT
  {
    Pow256Values();
    FromBigEndianBound(s);
    FromBigEndian(s)
  }

  /** `(n as u32).to_be_bytes()` */
  function U32(n: nat): (s: seq<byte>)
    ensures |s| == 4
  {
    BigEndian(n, 4)
  }

  function FromU32(s: seq<byte>): (n: nat)
    requires |s| == 4
    ensures n < U32_LIMIT
  {
    Pow256Values();
    FromBigEndianBound(s);
    FromBigEndian(s)
  }

  lemma JoinAssociates(a: seq<byte>, b: seq<byte>, c: seq<byte>)
    ensures (a + b) + c == a + (b + c)
  {
  }

  lemma U16RoundTrip(n: nat)
    requires n < U16_LIMIT
    ensures FromU16(U16(n)) == n
  {
    Pow256Values();
    BigEndianRoundTrip(n, 2);
  }

  /** Identifiers by number. */
  function IdNo(i: nat): Bytes32 {
    U16(i) + Zeros(30)
  }

  lemma IdsDiffer(i: nat, j: nat)
    requires i < U16_LIMIT && j < U16_LIMIT && IdNo(i) == IdNo(j)
    ensures i == j
  {
    assert IdNo(i)[..2] == U16(i) && IdNo(j)[..2] == U16(j);
    U16RoundTrip(i);
    U16RoundTrip(j);
  }

  lemma U32RoundTrip(n: nat)
    requires n < U32_LIMIT
    ensures FromU32(U32(n)) == n
  {
    Pow256Values();
    BigEndianRoundTrip(n, 4);
  }

  /** The exclusive-or of the low `bits` bits of `a` and `k`. */
  function XorBits(a: nat, k: nat, bits: nat): nat {
    if bits == 0 then 0 else 2 * XorBits(a / 2, k / 2, bits - 1) + (a + k) % 2
  }

  function Pow2(n: nat): nat {
    if n == 0 then 1 else 2 * Pow2(n - 1)
  }

  lemma {:induction false} XorBitsCancels(a: nat, k: nat, bits: nat)
    requires a < Pow2(bits)
    ensures XorBits(a, k, bits) < Pow2(bits)
    ensures XorBits(XorBits(a, k, bits), k, bits) == a
  {
    if bits != 0 {
      XorBitsCancels(a / 2, k / 2, bits - 1);
      var high := XorBits(a / 2, k / 2, bits - 1);
      LowBit(a, k, high);
      assert XorBits(a, k, bits) == 2 * high + (a + k) % 2;
    }
  }

  lemma LowBit(a: nat, k: nat, high: nat)
    ensures (2 * high + (a + k) % 2) / 2 == high
    ensures (2 * high + (a + k) % 2 + k) % 2 == a % 2
  {
  }

  /** One byte of a keystream applied to one byte of text. */
  function Xor(a: byte, k: byte): byte {
    assert XorBits(a, k, 8) < 256 by { Pow2Of8(); XorBitsCancels(a, k, 8); }
    XorBits(a, k, 8)
  }

  lemma Pow2Of8()
    ensures Pow2(8) == 256
  {
    assert Pow2(4) == 16;
  }

  lemma {:induction false} XorBitsZero(a: nat, bits: nat)
    requires a < Pow2(bits)
    ensures XorBits(a, 0, bits) == a
  {
    if bits != 0 {
      XorBitsZero(a / 2, bits - 1);
    }
  }

  lemma XorCancels(a: byte, k: byte)
    ensures Xor(Xor(a, k), k) == a
  {
    Pow2Of8();
    XorBitsCancels(a, k, 8);
  }

  /** Where item `i` of items of one size starts: `i * size`, said without a product. */
  function Offset(size: nat, i: nat): nat {
    if i == 0 then 0 else Offset(size, i - 1) + size
  }

  lemma {:induction false} OffsetIsProduct(size: nat, i: nat)
    ensures Offset(size, i) == i * size
  {
    if i > 0 {
      OffsetIsProduct(size, i - 1);
      assert i * size == (i - 1) * size + size;
    }
  }
}
