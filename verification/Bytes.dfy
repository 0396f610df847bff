/** Bytes, fixed-width big-endian numbers and the opaque hash. */
module Bytes {

  type Byte = x: int | 0 <= x < 256

  type ByteString = seq<Byte>

  /** A 32-byte hash value. */
  type Digest = d: ByteString | |d| == 32 witness seq(32, _ => 0)

  /** SHA-256 is a parameter of the model: every statement holds for every function from byte
      strings to digests, and none of them assumes that the function is injective. */
  type Hash = ByteString -> Digest

  const U32_BOUND: nat := 0x1_0000_0000
  const U64_BOUND: nat := 0x1_0000_0000_0000_0000

  type U32 = n: nat | n < U32_BOUND
  type U64 = n: nat | n < U64_BOUND

  /** 64-bit addition that stops at the largest value. */
  function SaturatingAdd(a: U64, b: U64): U64 {
    if a + b < U64_BOUND then a + b else U64_BOUND - 1
  }

  /** The link value that every chain starts from: 32 zero bytes. */
  function Genesis(): Digest {
    seq(32, _ => 0)
  }

  function Flag(b: bool): Byte {
    if b then 1 else 0
  }

  /** Two different byte strings with the same hash. */
  predicate Collision(sha: Hash, x: ByteString, y: ByteString) {
    x != y && sha(x) == sha(y)
  }

  function Power256(width: nat): (p: nat)
    ensures p > 0
  {
    if width == 0 then 1 else 256 * Power256(width - 1)
  }

  /** The low `width` bytes of `n`, most significant first. */
  function BigEndian(n: nat, width: nat): (b: ByteString)
    ensures |b| == width
  {
    if width == 0 then [] else BigEndian(n / 256, width - 1) + [n % 256]
  }

  function FromBigEndian(b: ByteString): nat {
    if b == [] then 0 else FromBigEndian(b[..|b| - 1]) * 256 + b[|b| - 1]
  }

  lemma {:induction false} BigEndianRoundTrip(n: nat, width: nat)
    requires n < Power256(width)
    ensures FromBigEndian(BigEndian(n, width)) == n
  {
    if width > 0 {
      BigEndianRoundTrip(n / 256, width - 1);
      var b := BigEndian(n, width);
      assert b[..|b| - 1] == BigEndian(n / 256, width - 1);
    }
  }

  /** The converse: every byte string is the encoding of the number it denotes. */
  lemma {:induction false} FromBigEndianRoundTrip(b: ByteString)
    ensures FromBigEndian(b) < Power256(|b|)
    ensures BigEndian(FromBigEndian(b), |b|) == b
  {
    if b != [] {
      var high := b[..|b| - 1];
      FromBigEndianRoundTrip(high);
      assert FromBigEndian(b) / 256 == FromBigEndian(high);
      assert b == high + [b[|b| - 1]];
    }
  }

  lemma FromBigEndianInjective(a: ByteString, b: ByteString)
    requires |a| == |b| && FromBigEndian(a) == FromBigEndian(b)
    ensures a == b
  {
    FromBigEndianRoundTrip(a);
    FromBigEndianRoundTrip(b);
  }

  lemma WidthBounds()
    ensures Power256(2) == 0x1_0000 && Power256(4) == U32_BOUND && Power256(8) == U64_BOUND
  {
    assert Power256(1) == 256;
    assert Power256(2) == 256 * 256;
    assert Power256(3) == 256 * 256 * 256;
    assert Power256(4) == U32_BOUND;
    assert Power256(5) == 256 * U32_BOUND;
    assert Power256(6) == 256 * 256 * U32_BOUND;
    assert Power256(7) == 256 * 256 * 256 * U32_BOUND;
  }

  function Be4(n: U32): (b: ByteString)
    ensures |b| == 4
  {
    BigEndian(n, 4)
  }

  function Be8(n: U64): (b: ByteString)
    ensures |b| == 8
  {
    BigEndian(n, 8)
  }

  /** The low `width` bytes of a signed number in two's complement. */
  function SignedBigEndian(x: int, width: nat): (b: ByteString)
    ensures |b| == width
  {
    BigEndian(x % Power256(width), width)
  }

  lemma MultipleBounds(k: int, m: int)
    requires m > 0
    ensures k >= 1 ==> k * m >= m
    ensures k <= -1 ==> k * m <= -m
  {
    assert k * m == m + (k - 1) * m == -m + (k + 1) * m;
  }

  /** Numbers less than a modulus apart are determined by their residues. */
  lemma SameResidue(x: int, y: int, m: int)
    requires m > 0 && x % m == y % m && -m < x - y < m
    ensures x == y
  {
    MultipleBounds(x / m - y / m, m);
    assert x - y == (x / m - y / m) * m;
  }

  lemma Signed2Injective(x: int, y: int)
    requires -0x8000 <= x < 0x8000 && -0x8000 <= y < 0x8000 && SignedBigEndian(x, 2) == SignedBigEndian(y, 2)
    ensures x == y
  {
    WidthBounds();
    BigEndianRoundTrip(x % 0x1_0000, 2);
    BigEndianRoundTrip(y % 0x1_0000, 2);
    SameResidue(x, y, 0x1_0000);
  }

  lemma Signed8Injective(x: int, y: int)
    requires -0x8000_0000_0000_0000 <= x < 0x8000_0000_0000_0000
    requires -0x8000_0000_0000_0000 <= y < 0x8000_0000_0000_0000
    requires SignedBigEndian(x, 8) == SignedBigEndian(y, 8)
    ensures x == y
  {
    WidthBounds();
    BigEndianRoundTrip(x % U64_BOUND, 8);
    BigEndianRoundTrip(y % U64_BOUND, 8);
    SameResidue(x, y, U64_BOUND);
  }

  lemma Be2Injective(m: nat, n: nat)
    requires m < 0x1_0000 && n < 0x1_0000 && BigEndian(m, 2) == BigEndian(n, 2)
    ensures m == n
  {
    WidthBounds();
    BigEndianRoundTrip(m, 2);
    BigEndianRoundTrip(n, 2);
  }

  lemma Be8RoundTrip(n: U64)
    ensures FromBigEndian(Be8(n)) == n
  {
    WidthBounds();
    BigEndianRoundTrip(n, 8);
  }

  lemma Be4Injective(m: U32, n: U32)
    requires Be4(m) == Be4(n)
    ensures m == n
  {
    WidthBounds();
    BigEndianRoundTrip(m, 4);
    BigEndianRoundTrip(n, 4);
  }

  lemma Be8Injective(m: U64, n: U64)
    requires Be8(m) == Be8(n)
    ensures m == n
  {
    Be8RoundTrip(m);
    Be8RoundTrip(n);
  }

  /** Concatenations whose first parts have the same length agree part by part. */
  lemma SplitEqual(a: ByteString, b: ByteString, x: ByteString, y: ByteString)
    requires |a| == |b| && a + x == b + y
    ensures a == b && x == y
  {
    assert a == (a + x)[..|a|] && b == (b + y)[..|a|];
    assert x == (a + x)[|a|..] && y == (b + y)[|a|..];
  }

  lemma TwoBytes(a: Byte, b: Byte, x: Byte, y: Byte)
    requires [a, b] == [x, y]
    ensures a == x && b == y
  {
    assert a == [a, b][0] && b == [a, b][1];
  }

  lemma ThreeBytes(a: Byte, b: Byte, c: Byte, x: Byte, y: Byte, z: Byte)
    requires [a, b, c] == [x, y, z]
    ensures a == x && b == y && c == z
  {
    assert a == [a, b, c][0] && b == [a, b, c][1] && c == [a, b, c][2];
  }

  lemma FourBytes(a: Byte, b: Byte, c: Byte, d: Byte, w: Byte, x: Byte, y: Byte, z: Byte)
    requires [a, b, c, d] == [w, x, y, z]
    ensures a == w && b == x && c == y && d == z
  {
    assert a == [a, b, c, d][0] && b == [a, b, c, d][1] && c == [a, b, c, d][2] && d == [a, b, c, d][3];
  }

  lemma OneByte(a: Byte, x: Byte)
    requires [a] == [x]
    ensures a == x
  {
    assert a == [a][0];
  }
}
