/** The example of one block that is published with SHA-1: the digest of "abc". It fixes the
    constants, functions and rotations of the reference, its byte order and its padding. */
module Sha1Example {
  import opened Sha1Spec

  const ABC: seq<Byte> := [0x61, 0x62, 0x63]

  /** "abc", padded. */
  predicate IsBlock(b: seq<Byte>) {
    |b| == BLOCK && b[0] == 0x61 && b[1] == 0x62 && b[2] == 0x63 && b[3] == 0x80 && b[63] == 24 &&
    forall i | 4 <= i < 63 :: b[i] == 0
  }

  lemma WordNext(b: seq<Byte>, t: nat)
    requires |b| == BLOCK && 16 <= t
    ensures W(b, t) == Expand(W(b, t - 3), W(b, t - 8), W(b, t - 14), W(b, t - 16))
  {
    hide Expand;
  }

  lemma WordFirst(b: seq<Byte>, t: nat)
    requires |b| == BLOCK && t < 16
    ensures W(b, t) == Load(b, 4 * t)
  {
  }

  lemma RoundNext(b: seq<Byte>, t: nat)
    requires |b| == BLOCK
    ensures Rounds(INITIAL, b, t + 1) == Round(Rounds(INITIAL, b, t), t, W(b, t))
  {
    hide Round, W;
  }
  lemma Words0(b: seq<Byte>)
    requires |b| == BLOCK && IsBlock(b)
    ensures W(b, 0) == 0x61626380 && W(b, 1) == 0x00000000
    ensures W(b, 2) == 0x00000000 && W(b, 3) == 0x00000000
    ensures W(b, 4) == 0x00000000 && W(b, 5) == 0x00000000
    ensures W(b, 6) == 0x00000000 && W(b, 7) == 0x00000000
    ensures W(b, 8) == 0x00000000 && W(b, 9) == 0x00000000
    ensures W(b, 10) == 0x00000000 && W(b, 11) == 0x00000000
    ensures W(b, 12) == 0x00000000 && W(b, 13) == 0x00000000
    ensures W(b, 14) == 0x00000000 && W(b, 15) == 0x00000018
  {
    hide W;
    WordFirst(b, 0);
    WordFirst(b, 1);
    WordFirst(b, 2);
    WordFirst(b, 3);
    WordFirst(b, 4);
    WordFirst(b, 5);
    WordFirst(b, 6);
    WordFirst(b, 7);
    WordFirst(b, 8);
    WordFirst(b, 9);
    WordFirst(b, 10);
    WordFirst(b, 11);
    WordFirst(b, 12);
    WordFirst(b, 13);
    WordFirst(b, 14);
    WordFirst(b, 15);
  }

  lemma Words16(b: seq<Byte>)
    requires |b| == BLOCK && IsBlock(b)
    ensures W(b, 16) == 0xc2c4c700 && W(b, 17) == 0x00000000
    ensures W(b, 18) == 0x00000030 && W(b, 19) == 0x85898e01
    ensures W(b, 20) == 0x00000000 && W(b, 21) == 0x00000060
    ensures W(b, 22) == 0x0b131c03 && W(b, 23) == 0x00000030
    ensures W(b, 24) == 0x85898ec1 && W(b, 25) == 0x16263806
    ensures W(b, 26) == 0x00000000 && W(b, 27) == 0x00000180
    ensures W(b, 28) == 0x2c4c700c && W(b, 29) == 0x000000f0
    ensures W(b, 30) == 0x93afb507 && W(b, 31) == 0x5898e048
  {
    hide W;
    hide IsBlock;
    Words0(b);
    WordNext(b, 16);
    WordNext(b, 17);
    WordNext(b, 18);
    WordNext(b, 19);
    WordNext(b, 20);
    WordNext(b, 21);
    WordNext(b, 22);
    WordNext(b, 23);
    WordNext(b, 24);
    WordNext(b, 25);
    WordNext(b, 26);
    WordNext(b, 27);
    WordNext(b, 28);
    WordNext(b, 29);
    WordNext(b, 30);
    WordNext(b, 31);
  }

  lemma Words32(b: seq<Byte>)
    requires |b| == BLOCK && IsBlock(b)
    ensures W(b, 32) == 0x8e9a9202 && W(b, 33) == 0x00000600
    ensures W(b, 34) == 0xb131c0f0 && W(b, 35) == 0x16263bc6
    ensures W(b, 36) == 0x4ebed41e && W(b, 37) == 0x626380a1
    ensures W(b, 38) == 0x16263806 && W(b, 39) == 0x000018c0
    ensures W(b, 40) == 0xd2e138c4 && W(b, 41) == 0x00000f00
    ensures W(b, 42) == 0x3afb5079 && W(b, 43) == 0x898e04e5
    ensures W(b, 44) == 0xe2ba3c2b && W(b, 45) == 0x000060c0
    ensures W(b, 46) == 0x053a37cd && W(b, 47) == 0x74458547
  {
    hide W;
    hide IsBlock;
    Words16(b);
    WordNext(b, 32);
    WordNext(b, 33);
    WordNext(b, 34);
    WordNext(b, 35);
    WordNext(b, 36);
    WordNext(b, 37);
    WordNext(b, 38);
    WordNext(b, 39);
    WordNext(b, 40);
    WordNext(b, 41);
    WordNext(b, 42);
    WordNext(b, 43);
    WordNext(b, 44);
    WordNext(b, 45);
    WordNext(b, 46);
    WordNext(b, 47);
  }

  lemma Words48(b: seq<Byte>)
    requires |b| == BLOCK && IsBlock(b)
    ensures W(b, 48) == 0xda9415ed && W(b, 49) == 0x26380a16
    ensures W(b, 50) == 0x626383a1 && W(b, 51) == 0x4ebf54de
    ensures W(b, 52) == 0x3835b44b && W(b, 53) == 0x0000f600
    ensures W(b, 54) == 0x1e84c7a3 && W(b, 55) == 0x98e04d98
    ensures W(b, 56) == 0x651d16a0 && W(b, 57) == 0x62658ca1
    ensures W(b, 58) == 0x458544d6 && W(b, 59) == 0x44584cb7
    ensures W(b, 60) == 0x7ba06619 && W(b, 61) == 0x6380aea2
    ensures W(b, 62) == 0x0ae55269 && W(b, 63) == 0x627b49a1
  {
    hide W;
    hide IsBlock;
    Words32(b);
    WordNext(b, 48);
    WordNext(b, 49);
    WordNext(b, 50);
    WordNext(b, 51);
    WordNext(b, 52);
    WordNext(b, 53);
    WordNext(b, 54);
    WordNext(b, 55);
    WordNext(b, 56);
    WordNext(b, 57);
    WordNext(b, 58);
    WordNext(b, 59);
    WordNext(b, 60);
    WordNext(b, 61);
    WordNext(b, 62);
    WordNext(b, 63);
  }

  lemma Words64(b: seq<Byte>)
    requires |b| == BLOCK && IsBlock(b)
    ensures W(b, 64) == 0x7cd45c9d && W(b, 65) == 0x000f0000
    ensures W(b, 66) == 0xfb50753a && W(b, 67) == 0xec6765e8
    ensures W(b, 68) == 0xba3c2be2 && W(b, 69) == 0x0060c000
    ensures W(b, 70) == 0x3a37cd05 && W(b, 71) == 0x458546f4
    ensures W(b, 72) == 0xb8599dd6 && W(b, 73) == 0x380a1a26
    ensures W(b, 74) == 0x01e02203 && W(b, 75) == 0xe7cc3456
    ensures W(b, 76) == 0xe6e60b69 && W(b, 77) == 0x00f60a00
    ensures W(b, 78) == 0x5795ef4f && W(b, 79) == 0x822e0879
  {
    hide W;
    hide IsBlock;
    Words48(b);
    WordNext(b, 64);
    WordNext(b, 65);
    WordNext(b, 66);
    WordNext(b, 67);
    WordNext(b, 68);
    WordNext(b, 69);
    WordNext(b, 70);
    WordNext(b, 71);
    WordNext(b, 72);
    WordNext(b, 73);
    WordNext(b, 74);
    WordNext(b, 75);
    WordNext(b, 76);
    WordNext(b, 77);
    WordNext(b, 78);
    WordNext(b, 79);
  }

  lemma Rounds20(b: seq<Byte>)
    requires |b| == BLOCK && IsBlock(b)
    ensures Rounds(INITIAL, b, 20) ==
      Regs(0xfd9e1d7d, 0xdc64901d, 0x20aa99ca, 0xd3a49608, 0xc82f758b)
  {
    hide W, Rounds, IsBlock;
    NoRounds(b);
    Words0(b);
    Words16(b);
    RoundNext(b, 0);
    RoundNext(b, 1);
    RoundNext(b, 2);
    RoundNext(b, 3);
    RoundNext(b, 4);
    RoundNext(b, 5);
    RoundNext(b, 6);
    RoundNext(b, 7);
    RoundNext(b, 8);
    RoundNext(b, 9);
    RoundNext(b, 10);
    RoundNext(b, 11);
    RoundNext(b, 12);
    RoundNext(b, 13);
    RoundNext(b, 14);
    RoundNext(b, 15);
    RoundNext(b, 16);
    RoundNext(b, 17);
    RoundNext(b, 18);
    RoundNext(b, 19);
  }

  lemma Rounds40(b: seq<Byte>)
    requires |b| == BLOCK && IsBlock(b)
    ensures Rounds(INITIAL, b, 40) ==
      Regs(0x32de1cba, 0x4c986405, 0xf718e5cf, 0x03d447f6, 0xf72eec32)
  {
    hide W, Rounds, IsBlock;
    Rounds20(b);
    Words16(b);
    Words32(b);
    RoundNext(b, 20);
    RoundNext(b, 21);
    RoundNext(b, 22);
    RoundNext(b, 23);
    RoundNext(b, 24);
    RoundNext(b, 25);
    RoundNext(b, 26);
    RoundNext(b, 27);
    RoundNext(b, 28);
    RoundNext(b, 29);
    RoundNext(b, 30);
    RoundNext(b, 31);
    RoundNext(b, 32);
    RoundNext(b, 33);
    RoundNext(b, 34);
    RoundNext(b, 35);
    RoundNext(b, 36);
    RoundNext(b, 37);
    RoundNext(b, 38);
    RoundNext(b, 39);
  }

  lemma Rounds60(b: seq<Byte>)
    requires |b| == BLOCK && IsBlock(b)
    ensures Rounds(INITIAL, b, 60) ==
      Regs(0x3f52de5a, 0x09d785fd, 0x3498bfd4, 0xf211824f, 0xd79915ab)
  {
    hide W, Rounds, IsBlock;
    Rounds40(b);
    Words32(b);
    Words48(b);
    RoundNext(b, 40);
    RoundNext(b, 41);
    RoundNext(b, 42);
    RoundNext(b, 43);
    RoundNext(b, 44);
    RoundNext(b, 45);
    RoundNext(b, 46);
    RoundNext(b, 47);
    RoundNext(b, 48);
    RoundNext(b, 49);
    RoundNext(b, 50);
    RoundNext(b, 51);
    RoundNext(b, 52);
    RoundNext(b, 53);
    RoundNext(b, 54);
    RoundNext(b, 55);
    RoundNext(b, 56);
    RoundNext(b, 57);
    RoundNext(b, 58);
    RoundNext(b, 59);
  }

  lemma Rounds80(b: seq<Byte>)
    requires |b| == BLOCK && IsBlock(b)
    ensures Rounds(INITIAL, b, 80) ==
      Regs(0x42541b35, 0x5738d5e1, 0x21834873, 0x681e6df6, 0xd8fdf6ad)
  {
    hide W, Rounds, IsBlock;
    Rounds60(b);
    Words48(b);
    Words64(b);
    RoundNext(b, 60);
    RoundNext(b, 61);
    RoundNext(b, 62);
    RoundNext(b, 63);
    RoundNext(b, 64);
    RoundNext(b, 65);
    RoundNext(b, 66);
    RoundNext(b, 67);
    RoundNext(b, 68);
    RoundNext(b, 69);
    RoundNext(b, 70);
    RoundNext(b, 71);
    RoundNext(b, 72);
    RoundNext(b, 73);
    RoundNext(b, 74);
    RoundNext(b, 75);
    RoundNext(b, 76);
    RoundNext(b, 77);
    RoundNext(b, 78);
    RoundNext(b, 79);
  }

  lemma NoRounds(b: seq<Byte>)
    requires |b| == BLOCK
    ensures Rounds(INITIAL, b, 0) == INITIAL
  {
  }

  lemma CompressedBlock(b: seq<Byte>)
    requires |b| == BLOCK && IsBlock(b)
    ensures Compress(INITIAL, b) == Regs(0xa9993e36, 0x4706816a, 0xba3e2571, 0x7850c26c, 0x9cd0d89d)
  {
    hide Rounds, IsBlock;
    Rounds80(b);
  }

  lemma {:induction false} ZeroBigEndian(width: nat, i: nat)
    requires i < width
    ensures BigEndian(0, width)[i] == 0
  {
    if i < width - 1 {
      ZeroBigEndian(width - 1, i);
    }
  }

  lemma LengthBytes()
    ensures LengthField(3)[7] == 24 && forall i | 0 <= i < 7 :: LengthField(3)[i] == 0
  {
    hide BigEndian;
    LastByte(24, 7);
    forall i | 0 <= i < 7
      ensures LengthField(3)[i] == 0
    {
      ZeroBigEndian(7, i);
    }
  }

  lemma LastByte(n: nat, width: nat)
    ensures BigEndian(n, width + 1) == BigEndian(n / 256, width) + [ToByte(n % 256)]
  {
  }

  lemma PaddedBlock()
    ensures |Padded(ABC)| == BLOCK && IsBlock(Padded(ABC))
  {
    hide LengthField;
    var p := Padded(ABC);
    PaddedIs(ABC);
    LengthBytes();
    assert p[..3] == ABC && p[0] == p[..3][0] && p[1] == p[..3][1] && p[2] == p[..3][2];
    assert p[56..] == LengthField(3);
    assert forall i | 56 <= i < 64 :: p[i] == p[56..][i - 56];
  }

  /** The digest of "abc". */
  lemma DigestOfAbc()
    ensures Sha1Spec.Sha1(ABC) == DIGEST
  {
    hide Padded, Compress, IsBlock;
    var p := Padded(ABC);
    PaddedBlock();
    CompressedBlock(p);
    OneBlock(p);
    hide Sha1Spec.HashBlocks;
    assert |p| / BLOCK == 1;
  }

  lemma OneBlock(p: seq<Byte>)
    requires |p| == BLOCK
    ensures HashBlocks(p, 1) == Compress(INITIAL, p)
  {
    hide Compress;
    assert p[0..BLOCK] == p;
  }

  const DIGEST: seq<Byte> := [
    0xa9, 0x99, 0x3e, 0x36, 0x47, 0x06, 0x81, 0x6a, 0xba, 0x3e,
    0x25, 0x71, 0x78, 0x50, 0xc2, 0x6c, 0x9c, 0xd0, 0xd8, 0x9d]
}
