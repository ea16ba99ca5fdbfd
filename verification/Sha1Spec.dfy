/** SHA-1 as sections 4.1.1, 4.2.1, 5.1.1, 5.3.1 and 6.1.2 of FIPS 180-4 define it: the
    reference that the streaming implementation is proved against. */
module Sha1Spec {
  import Bits

  type Byte = bv8
  type Word = bv32

  datatype Regs = Regs(a: Word, b: Word, c: Word, d: Word, e: Word)

  const INITIAL := Regs(0x67452301, 0xEFCDAB89, 0x98BADCFE, 0x10325476, 0xC3D2E1F0)
  const BLOCK: nat := 64

  function Rotl1(x: Word): Word { (x << 1) | (x >> 31) }
  function Rotl5(x: Word): Word { (x << 5) | (x >> 27) }
  function Rotl30(x: Word): Word { (x << 30) | (x >> 2) }

  function Ch(x: Word, y: Word, z: Word): Word { (x & y) ^ (!x & z) }
  function Parity(x: Word, y: Word, z: Word): Word { x ^ y ^ z }
  function Maj(x: Word, y: Word, z: Word): Word { (x & y) ^ (x & z) ^ (y & z) }

  /** Section 4.1.1. */
  function F(t: nat, x: Word, y: Word, z: Word): Word {
    if t < 20 then Ch(x, y, z)
    else if t < 40 then Parity(x, y, z)
    else if t < 60 then Maj(x, y, z)
    else Parity(x, y, z)
  }

  /** Section 4.2.1. */
  function K(t: nat): Word {
    if t < 20 then 0x5a827999
    else if t < 40 then 0x6ed9eba1
    else if t < 60 then 0x8f1bbcdc
    else 0xca62c1d6
  }

  /** A big-endian word. */
  function Load(s: seq<Byte>, k: nat): Word
    requires k + 4 <= |s|
  {
    (s[k] as Word << 24) | (s[k + 1] as Word << 16) | (s[k + 2] as Word << 8) | s[k + 3] as Word
  }

  function Expand(x: Word, y: Word, z: Word, w: Word): Word { Rotl1(x ^ y ^ z ^ w) }

  /** The 80-word message schedule of section 6.1.2, step 1. */
  function W(block: seq<Byte>, t: nat): Word
    requires |block| == BLOCK
  {
    if t < 16 then Load(block, 4 * t)
    else Expand(W(block, t - 3), W(block, t - 8), W(block, t - 14), W(block, t - 16))
  }

  /** The temporary word of section 6.1.2, step 3. */
  function Temp(a: Word, f: Word, e: Word, k: Word, w: Word): Word {
    Rotl5(a) + f + e + k + w
  }

  /** One turn of the loop of section 6.1.2, step 3. */
  function Round(r: Regs, t: nat, w: Word): Regs {
    Regs(Temp(r.a, F(t, r.b, r.c, r.d), r.e, K(t), w), r.a, Rotl30(r.b), r.c, r.d)
  }

  /** The registers after `t` turns. */
  function Rounds(h: Regs, block: seq<Byte>, t: nat): Regs
    requires |block| == BLOCK
  {
    if t == 0 then h else Round(Rounds(h, block, t - 1), t - 1, W(block, t - 1))
  }

  function Plus(x: Word, y: Word): Word { x + y }

  function Add(x: Regs, y: Regs): Regs {
    Regs(Plus(x.a, y.a), Plus(x.b, y.b), Plus(x.c, y.c), Plus(x.d, y.d), Plus(x.e, y.e))
  }

  function Compress(h: Regs, block: seq<Byte>): Regs
    requires |block| == BLOCK
  {
    Add(h, Rounds(h, block, 80))
  }

  /** The hash value after the first `n` blocks of `msg`. */
  function HashBlocks(msg: seq<Byte>, n: nat): Regs
    requires BLOCK * n <= |msg|
  {
    if n == 0 then INITIAL
    else Compress(HashBlocks(msg, n - 1), msg[BLOCK * (n - 1)..BLOCK * n])
  }

  function ToByte(n: nat): Byte
    requires n < 256
  {
    n as Byte
  }

  function ByteValue(b: Byte): (n: nat)
    ensures n < 256
  {
    b as nat
  }

  /** The low `width` bytes of `n`, the most significant first. */
  function BigEndian(n: nat, width: nat): (s: seq<Byte>)
    ensures |s| == width
  {
    if width == 0 then [] else BigEndian(n / 256, width - 1) + [ToByte(n % 256)]
  }

  /** The number k of zero bytes after the 0x80 byte, in section 5.1.1: the least that brings the
      length to 56 modulo 64. */
  function ZeroBytes(n: nat): (k: nat)
    ensures (n + 1 + k) % 64 == 56 && k < 64
  {
    (119 - n % 64) % 64
  }

  function Zeros(k: nat): (s: seq<Byte>)
    ensures |s| == k
  {
    seq(k, _ => 0)
  }

  /** The number of bits of a message of `n` bytes, in eight bytes. */
  function LengthField(n: nat): (s: seq<Byte>)
    ensures |s| == 8
  {
    BigEndian(8 * n % 0x1_0000_0000_0000_0000, 8)
  }

  /** Section 5.1.1. The length field is exact for messages shorter than 2^61 bytes, the only ones
      the standard defines; beyond, it is the bit count modulo 2^64. */
  function Padded(msg: seq<Byte>): (p: seq<Byte>)
    ensures |p| == |msg| + 9 + ZeroBytes(|msg|)
  {
    msg + [0x80] + Zeros(ZeroBytes(|msg|)) + LengthField(|msg|)
  }

  /** The number that bytes spell, the most significant first. */
  function Number(s: seq<Byte>): nat {
    if s == [] then 0 else 256 * Number(s[..|s| - 1]) + ByteValue(s[|s| - 1])
  }

  function Pow256(k: nat): nat {
    if k == 0 then 1 else 256 * Pow256(k - 1)
  }

  lemma ToByteValue(n: nat)
    requires n < 256
    ensures ByteValue(ToByte(n)) == n
  {
    Bits.ByteAndBack(n);
  }

  lemma {:induction false} BigEndianSpells(n: nat, width: nat)
    requires n < Pow256(width)
    ensures Number(BigEndian(n, width)) == n
  {
    if width > 0 {
      hide ToByte, ByteValue;
      BigEndianSpells(n / 256, width - 1);
      ToByteValue(n % 256);
      var s := BigEndian(n, width);
      assert s[..|s| - 1] == BigEndian(n / 256, width - 1);
    }
  }

  /** A padded message is the message, the byte 0x80, zero bytes, and its length in bits as eight
      bytes; it is whole blocks, and no shorter one would do. */
  lemma PaddedIs(msg: seq<Byte>)
    ensures var p, n := Padded(msg), |msg|;
      && |p| % 64 == 0 && n + 9 <= |p| < n + 9 + 64
      && p[..n] == msg && p[n] == 0x80 && (forall i | n < i < |p| - 8 :: p[i] == 0)
      && Number(p[|p| - 8..]) == 8 * n % 0x1_0000_0000_0000_0000
  {
    var p, n := Padded(msg), |msg|;
    PaddedLength(msg);
    BigEndianSpells(8 * n % 0x1_0000_0000_0000_0000, 8);
    hide BigEndian, Number, Pow256;
    assert p[|p| - 8..] == LengthField(n);
  }

  lemma PaddedLength(msg: seq<Byte>)
    ensures |Padded(msg)| % BLOCK == 0
  {
    hide Padded;
  }

  function WordBytes(x: Word): (s: seq<Byte>)
    ensures |s| == 4
  {
    [((x >> 24) & 255) as Byte, ((x >> 16) & 255) as Byte, ((x >> 8) & 255) as Byte, (x & 255) as Byte]
  }

  function Digest(h: Regs): (d: seq<Byte>)
    ensures |d| == 20
  {
    WordBytes(h.a) + WordBytes(h.b) + WordBytes(h.c) + WordBytes(h.d) + WordBytes(h.e)
  }

  /** SHA-1 of a message. */
  function Sha1(msg: seq<Byte>): (d: seq<Byte>)
    ensures |d| == 20
  {
    var p := Padded(msg);
    Digest(HashBlocks(p, |p| / BLOCK))
  }
}
