/**
 * Bytes and the fixed-width integer views that java.nio.ByteBuffer gives of them:
 * network-order (big-endian) multi-byte values, Java's signed 16-bit `short`, the
 * truncating `(int)` cast of a `long`, and the bitwise exclusive or of two bytes.
 *
 * Bytes are modelled unsigned (0..255). Java's `byte` is signed, but every use in the
 * codec masks it (`& 0x0F`, `& 0x7F`, `& 0x80`, `& (1 << k)`), and masking a sign-extended
 * byte keeps exactly the same low eight bits, so the unsigned view reads the same fields.
 * A mask `& (2^k - 1)` of a non-negative value is `% 2^k`, and `>> k` is `/ 2^k`.
 */
module Bytes {

  type Byte = b: int | 0 <= b < 256

  /** 256^k, the number of values that k bytes can hold. */
  function Pow256(k: nat): (r: nat)
    ensures r >= 1
  {
    if k == 0 then 1 else 256 * Pow256(k - 1)
  }

  lemma Pow256Values()
    ensures Pow256(2) == 0x1_0000 && Pow256(4) == 0x1_0000_0000 && Pow256(8) == 0x1_0000_0000_0000_0000
  {
    assert Pow256(1) == 0x100;
    assert Pow256(3) == 0x100_0000;
    assert Pow256(5) == 0x100_0000_0000;
    assert Pow256(6) == 0x1_0000_0000_0000;
    assert Pow256(7) == 0x100_0000_0000_0000;
  }

  /** The k-byte network-order encoding of n, keeping the low 8k bits (ByteBuffer.putShort/putLong). */
  function BigEndian(n: nat, k: nat): (r: seq<Byte>)
    ensures |r| == k
  {
    if k == 0 then [] else BigEndian(n / 256, k - 1) + [n % 256]
  }

  /** The unsigned value of a network-order byte sequence. */
  function FromBigEndian(s: seq<Byte>): (r: nat)
    ensures r < Pow256(|s|)
  {
    if s == [] then 0 else FromBigEndian(s[..|s| - 1]) * 256 + s[|s| - 1]
  }

  /** Reading back k written bytes gives the value whenever it fits in k bytes. */
  lemma {:induction false} FromBigEndianOfBigEndian(n: nat, k: nat)
    requires n < Pow256(k)
    ensures FromBigEndian(BigEndian(n, k)) == n
  {
    if k > 0 {
      var s := BigEndian(n, k);
      assert s[..k - 1] == BigEndian(n / 256, k - 1);
      FromBigEndianOfBigEndian(n / 256, k - 1);
    } else {
      assert n == 0;
    }
  }

  /** Writing back the value of k read bytes reproduces them. */
  lemma {:induction false} BigEndianOfFromBigEndian(s: seq<Byte>)
    ensures BigEndian(FromBigEndian(s), |s|) == s
  {
    if s != [] {
      var k := |s|;
      var v := FromBigEndian(s[..k - 1]);
      assert (v * 256 + s[k - 1]) / 256 == v && (v * 256 + s[k - 1]) % 256 == s[k - 1];
      BigEndianOfFromBigEndian(s[..k - 1]);
      assert s == s[..k - 1] + [s[k - 1]];
    }
  }

  /** Java's ByteBuffer.getShort: a signed two's-complement 16-bit value. */
  function SignedShort(s: seq<Byte>): (r: int)
    requires |s| == 2
    ensures -32768 <= r < 32768
    ensures r == FromBigEndian(s) || r == FromBigEndian(s) - 65536
  {
    var u := FromBigEndian(s);
    if u >= 32768 then u - 65536 else u
  }

  /** Java's Short.toUnsignedInt(getShort()): the unsigned 16-bit value. */
  function UnsignedShort(s: seq<Byte>): (r: nat)
    requires |s| == 2
    ensures r < 65536
    ensures r % 65536 == SignedShort(s) % 65536
  {
    FromBigEndian(s)
  }

  /** Java's `(int) getLong()`: the low 32 bits of the 8 bytes, read as a signed int. */
  function TruncatedLong(s: seq<Byte>): (r: int)
    requires |s| == 8
    ensures -0x8000_0000 <= r < 0x8000_0000
    ensures (r - FromBigEndian(s)) % 0x1_0000_0000 == 0
  {
    var low := FromBigEndian(s) % 0x1_0000_0000;
    if low >= 0x8000_0000 then low - 0x1_0000_0000 else low
  }

  /** Bitwise exclusive or of two naturals, one bit at a time from the least significant. */
  function XorNat(a: nat, b: nat): nat
  {
    if a == 0 && b == 0 then 0 else 2 * XorNat(a / 2, b / 2) + (a % 2 + b % 2) % 2
  }

  function Pow2(k: nat): (r: nat)
    ensures r >= 1
  {
    if k == 0 then 1 else 2 * Pow2(k - 1)
  }

  lemma {:induction false} XorNatBound(a: nat, b: nat, k: nat)
    requires a < Pow2(k) && b < Pow2(k)
    ensures XorNat(a, b) < Pow2(k)
  {
    if !(a == 0 && b == 0) {
      XorNatBound(a / 2, b / 2, k - 1);
    }
  }

  lemma {:induction false} XorNatInvolutive(a: nat, b: nat)
    ensures XorNat(XorNat(a, b), b) == a
  {
    if !(a == 0 && b == 0) {
      var h := XorNat(a / 2, b / 2);
      var e := (a % 2 + b % 2) % 2;
      var c := XorNat(a, b);
      HalveTwiceAndBit(h, e);
      XorNatInvolutive(a / 2, b / 2);
      ParityCancels(a % 2, b % 2);
      assert !(c == 0 && b == 0) by {
        if b == 0 {
          ParityCancels(a % 2, 0);
        }
      }
      assert XorNat(c, b) == 2 * XorNat(h, b / 2) + (e + b % 2) % 2;
      assert XorNat(c, b) == 2 * (a / 2) + a % 2;
    }
  }

  /** 2h + e, for a bit e, halves to h with remainder e. */
  lemma HalveTwiceAndBit(h: nat, e: nat)
    requires e < 2
    ensures (2 * h + e) / 2 == h && (2 * h + e) % 2 == e
  {
  }

  /** Adding the same bit twice, modulo 2, gives the first bit back. */
  lemma ParityCancels(x: nat, y: nat)
    requires x < 2 && y < 2
    ensures ((x + y) % 2 + y) % 2 == x
    ensures (x + y) % 2 == 0 ==> x == y
  {
  }

  /** The byte `(byte) (a ^ b)`. */
  function Xor(a: Byte, b: Byte): Byte
  {
    XorNatBound(a, b, 8);
    XorNat(a, b)
  }

  /** XOR with the same key byte twice is the identity. */
  lemma XorInvolutive(a: Byte, b: Byte)
    ensures Xor(Xor(a, b), b) == a
  {
    XorNatInvolutive(a, b);
  }
}
