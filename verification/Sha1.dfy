/** src/sha1.cpp: the buffered `Update`, `Pad`, `Final` and `Finish` on top of the transform. */
module Sha1 {
  import Hex
  import opened Sha1Spec
  import opened Sha1Transform

  const TWO64: nat := 0x1_0000_0000_0000_0000

  // ----- facts about the reference -----

  lemma {:induction false} HashBlocksOfPrefix(msg: seq<Byte>, more: seq<Byte>, n: nat)
    requires BLOCK * n <= |msg|
    ensures HashBlocks(msg + more, n) == HashBlocks(msg, n)
  {
    hide Compress;
    if n > 0 {
      HashBlocksOfPrefix(msg, more, n - 1);
      assert (msg + more)[BLOCK * (n - 1)..BLOCK * n] == msg[BLOCK * (n - 1)..BLOCK * n];
    }
  }

  lemma BlockAcross(tail: seq<Byte>, data: seq<Byte>, all: seq<Byte>, n: nat)
    requires BLOCK * n <= |all| && all[BLOCK * n..] == tail + data
    requires |tail| < BLOCK <= |tail| + |data|
    ensures tail + data[..BLOCK - |tail|] == all[BLOCK * n..BLOCK * (n + 1)]
    ensures data[BLOCK - |tail|..] == all[BLOCK * (n + 1)..]
  {
    assert all[BLOCK * n..BLOCK * (n + 1)] == all[BLOCK * n..][..BLOCK];
    assert all[BLOCK * (n + 1)..] == all[BLOCK * n..][BLOCK..];
  }

  /** The bit counter modulo 2^64 still knows the position in the block. */
  lemma CountPosition(n: nat)
    ensures (8 * n % TWO64) / 8 % 64 == n % 64
  {
    var q, r := n / 0x2000_0000_0000_0000, n % 0x2000_0000_0000_0000;
    RemainderIs(8 * n, q, 8 * r);
    SameRemainder64(n, r, 0x80_0000_0000_0000 * q);
  }

  lemma SameRemainder64(n: nat, m: nat, q: nat)
    requires n == 64 * q + m
    ensures n % 64 == m % 64
  {
  }

  lemma RemainderIs(n: nat, q: nat, r: nat)
    requires n == TWO64 * q + r && r < TWO64
    ensures n % TWO64 == r
  {
  }

  lemma CountAdds(n: nat, len: nat)
    ensures (8 * n % TWO64 + len * 8 % TWO64) % TWO64 == 8 * (n + len) % TWO64
  {
    var x, y := 8 * n, len * 8;
    var r := x % TWO64 + y % TWO64;
    if r < TWO64 {
      RemainderIs(r, 0, r);
      RemainderIs(x + y, x / TWO64 + y / TWO64, r);
    } else {
      RemainderIs(r, 1, r - TWO64);
      RemainderIs(x + y, x / TWO64 + y / TWO64 + 1, r - TWO64);
    }
  }

  /** The digest read back as big-endian words is the hash value. */
  lemma DigestHoldsWords(h: Regs)
    ensures Load(Digest(h), 0) == h.a && Load(Digest(h), 4) == h.b && Load(Digest(h), 8) == h.c
    ensures Load(Digest(h), 12) == h.d && Load(Digest(h), 16) == h.e
  {
  }

  /** `n >> 8 * k`. */
  function ShiftBytes(n: nat, k: nat): nat {
    if k == 0 then n else ShiftBytes(n / 256, k - 1)
  }

  lemma {:induction false} BigEndianAt(n: nat, width: nat, i: nat)
    requires i < width
    ensures BigEndian(n, width)[i] == ToByte(ShiftBytes(n, width - 1 - i) % 256)
  {
    hide ToByte;
    if i < width - 1 {
      BigEndianAt(n / 256, width - 1, i);
    }
  }

  function WordOf(h: Regs, k: nat): Word
    requires k < 5
  {
    if k == 0 then h.a else if k == 1 then h.b else if k == 2 then h.c else if k == 3 then h.d else h.e
  }

  lemma WordOfRegs(words: seq<Word>, k: nat)
    requires |words| == 5 && k < 5
    ensures WordOf(ToRegs(words), k) == words[k]
  {
  }

  /** The byte that `Final` cuts out of a word: its shift by `(3 - k) * 8` written out. */
  function ByteAt(x: Word, k: nat): Byte
    requires k < 4
  {
    ((if k == 0 then x >> 24 else if k == 1 then x >> 16 else if k == 2 then x >> 8 else x) & 255) as Byte
  }

  lemma ByteAtIsWordByte(x: Word, k: nat)
    requires k < 4
    ensures ByteAt(x, k) == WordBytes(x)[k]
  {
  }

  lemma DigestAt(h: Regs, i: nat)
    requires i < 20
    ensures Digest(h)[i] == ByteAt(WordOf(h, i / 4), i % 4)
  {
    hide WordBytes, ByteAt;
    ByteAtIsWordByte(WordOf(h, i / 4), i % 4);
  }

  /** `memcpy` to the bytes of `to` from index `at`. */
  method Copy(to: array<Byte>, at: nat, bytes: seq<Byte>)
    requires at + |bytes| <= to.Length
    modifies to
    ensures to[..] == old(to[..at]) + bytes + old(to[at + |bytes|..])
  {
    forall k | 0 <= k < |bytes| {
      to[at + k] := bytes[k];
    }
  }

  /** `words` is the fold of the transform over the first `n` blocks of `msg`. */
  ghost predicate Processed(words: seq<Word>, msg: seq<Byte>, n: nat) {
    |words| == 5 && BLOCK * n <= |msg| && ToRegs(words) == HashBlocks(msg, n)
  }

  /** The state is the fold of the transform over the complete blocks fed so far, the front of
      the buffer is the unprocessed tail, and the counter is the number of bits fed. */
  ghost predicate Holds(words: seq<Word>, count: nat, bytes: seq<Byte>, fed: seq<Byte>) {
    |bytes| == BLOCK && count == 8 * |fed| % TWO64 &&
    Processed(words, fed, |fed| / BLOCK) &&
    bytes[..|fed| % BLOCK] == fed[BLOCK * (|fed| / BLOCK)..]
  }

  lemma ProcessedPrefix(words: seq<Word>, msg: seq<Byte>, more: seq<Byte>, n: nat)
    requires Processed(words, msg, n)
    ensures Processed(words, msg + more, n)
  {
    hide HashBlocks, ToRegs;
    HashBlocksOfPrefix(msg, more, n);
  }

  lemma ProcessedNext(was: seq<Word>, words: seq<Word>, msg: seq<Byte>, n: nat)
    requires Processed(was, msg, n) && BLOCK * (n + 1) <= |msg| && |words| == 5
    requires ToRegs(words) == Compress(ToRegs(was), msg[BLOCK * n..BLOCK * (n + 1)])
    ensures Processed(words, msg, n + 1)
  {
    hide Compress, ToRegs;
  }

  /** What the state says when a call to `Update` begins. */
  lemma Opened(words: seq<Word>, count: nat, bytes: seq<Byte>, fed: seq<Byte>, data: seq<Byte>) returns (n: nat)
    requires Holds(words, count, bytes, fed)
    ensures n == |fed| / BLOCK && Processed(words, fed + data, n) && |bytes| == BLOCK
    ensures (fed + data)[BLOCK * n..] == bytes[..count / 8 % 64] + data
    ensures |fed| == BLOCK * n + count / 8 % 64
    ensures (count + |data| * 8 % TWO64) % TWO64 == 8 * |fed + data| % TWO64
  {
    hide Processed;
    n := |fed| / BLOCK;
    CountPosition(|fed|);
    CountAdds(|fed|, |data|);
    ProcessedPrefix(words, fed, data, n);
    assert (fed + data)[BLOCK * n..] == fed[BLOCK * n..] + data;
  }

  lemma Closed(words: seq<Word>, count: nat, bytes: seq<Byte>, fed: seq<Byte>, n: nat, tail: seq<Byte>)
    requires Processed(words, fed, n) && BLOCK * n <= |fed| && fed[BLOCK * n..] == tail && |tail| < BLOCK == |bytes|
    requires count == 8 * |fed| % TWO64 && bytes[..|tail|] == tail
    ensures Holds(words, count, bytes, fed)
  {
    hide Processed;
    assert n == |fed| / BLOCK;
  }

  lemma ZerosGrow(k: nat)
    ensures Zeros(0) == [] && Zeros(k + 1) == Zeros(k) + [0]
  {
  }

  lemma ZeroBytesUnique(n: nat, k: nat)
    requires k <= ZeroBytes(n)
    ensures (n + 1 + k) % 64 == 56 <==> k == ZeroBytes(n)
  {
  }

  class SHA1 {
    const littleEndian: bool
    const state: array<Word>
    const buffer: array<Byte>
    var count: nat
    ghost var fed: seq<Byte>

    ghost predicate Valid()
      reads this, state, buffer
    {
      state.Length == 5 && buffer.Length == BLOCK && state as object != buffer &&
      Holds(state[..], count, buffer[..], fed)
    }

    constructor (littleEndian: bool)
      ensures Valid() && fed == [] && fresh(state) && fresh(buffer)
    {
      this.littleEndian := littleEndian;
      state := new Word[5] [0x67452301, 0xEFCDAB89, 0x98BADCFE, 0x10325476, 0xC3D2E1F0];
      buffer := new Byte[64](_ => 0);
      count := 0;
      fed := [];
    }

    method Update(data: seq<Byte>)
      requires Valid()
      modifies this, state, buffer
      ensures Valid() && fed == old(fed) + data
    {
      hide Holds, Processed, Compress, ToRegs;
      ghost var all := fed + data;
      ghost var n := Opened(state[..], count, buffer[..], fed, data);
      var i := 0;
      var j := count / 8 % 64;
      count := (count + |data| * 8 % TWO64) % TWO64;
      ghost var tail := buffer[..j];
      if j + |data| > 63 {
        i := 64 - j;
        BlockAcross(tail, data, all, n);
        FillBlock(data[..i], j, all, n);
        i, n := TransformBlocks(data, i, all, n + 1);
        j := 0;
        tail := [];
      }
      Copy(buffer, j, data[i..]);
      assert i == 0 ==> data[i..] == data;
      assert buffer[..j + |data| - i] == tail + data[i..];
      Closed(state[..], count, buffer[..], all, n, tail + data[i..]);
      fed := all;
    }

    /** The block that was begun in the buffer. */
    method FillBlock(bytes: seq<Byte>, j: nat, ghost all: seq<Byte>, ghost n: nat)
      requires state.Length == 5 && buffer.Length == BLOCK && state as object != buffer && j + |bytes| == BLOCK
      requires BLOCK * (n + 1) <= |all| && Processed(state[..], all, n)
      requires buffer[..j] + bytes == all[BLOCK * n..BLOCK * (n + 1)]
      modifies state, buffer
      ensures Processed(state[..], all, n + 1)
    {
      hide Processed, Compress, ToRegs;
      ghost var was, front := state[..], buffer[..j];
      Copy(buffer, j, bytes);
      assert buffer[..] == front + bytes;
      assert state[..] == was;
      Transform(littleEndian, state, buffer[..]);
      ProcessedNext(was, state[..], all, n);
    }

    /** The block loop of `Update`. */
    method TransformBlocks(data: seq<Byte>, from: nat, ghost all: seq<Byte>, ghost first: nat)
      returns (i: nat, ghost n: nat)
      requires state.Length == 5 && from <= |data| && BLOCK * first + |data| == |all| + from
      requires all[BLOCK * first..] == data[from..]
      requires Processed(state[..], all, first)
      modifies state
      ensures i <= |data| < i + 64 && BLOCK * n + |data| == |all| + i
      ensures Processed(state[..], all, n) && all[BLOCK * n..] == data[i..]
    {
      hide Processed, Compress, ToRegs;
      i, n := from, first;
      while i + 63 < |data|
        invariant i <= |data| && BLOCK * n + |data| == |all| + i
        invariant Processed(state[..], all, n) && all[BLOCK * n..] == data[i..]
      {
        assert data[i..i + 64] == all[BLOCK * n..BLOCK * (n + 1)];
        ghost var was := state[..];
        Transform(littleEndian, state, data[i..i + 64]);
        ProcessedNext(was, state[..], all, n);
        i := i + 64;
        n := n + 1;
      }
    }

    /** The eight bytes of the counter, most significant first. */
    method FinalCount() returns (finalcount: seq<Byte>)
      requires Valid()
      ensures finalcount == LengthField(|fed|)
    {
      hide BigEndian, ToByte, ShiftBytes, Processed;
      finalcount := [];
      for i := 0 to 8
        invariant finalcount == BigEndian(count, 8)[..i]
      {
        BigEndianAt(count, 8, i);
        finalcount := finalcount + [ToByte(ShiftBytes(count, 7 - i % 8) % 256)];
      }
    }

    lemma Position()
      requires Valid()
      ensures count / 8 % 64 == |fed| % 64
    {
      CountPosition(|fed|);
    }

    /** `SHA1::Pad`: everything goes through `Update`. */
    method Pad()
      requires Valid()
      modifies this, state, buffer
      ensures Valid() && fed == Padded(old(fed))
    {
      hide Holds, LengthField, ZeroBytes, Zeros;
      ghost var n := |fed|;
      ZerosGrow(0);
      var finalcount := FinalCount();
      Update([0x80]);
      ghost var k := 0;
      Position();
      ZeroBytesUnique(n, k);
      assert fed == old(fed) + [0x80] + Zeros(k);
      while count / 8 % 64 != 56
        invariant Valid() && k <= ZeroBytes(n)
        invariant fed == old(fed) + [0x80] + Zeros(k)
        invariant count / 8 % 64 == 56 <==> k == ZeroBytes(n)
        decreases ZeroBytes(n) - k
      {
        Update([0]);
        ZerosGrow(k);
        ZeroBytesUnique(n, k + 1);
        k := k + 1;
        Position();
      }
      Update(finalcount);
    }

    method Final() returns (digest: seq<Byte>)
      requires Valid()
      modifies this, state, buffer
      ensures Valid() && fed == Padded(old(fed))
      ensures digest == Sha1(old(fed))
    {
      hide HashBlocks, Padded, Digest, ByteAt, WordOf;
      Pad();
      PaddedLength(old(fed));
      ghost var h := ToRegs(state[..]);
      digest := [];
      for i := 0 to 20
        modifies {}
        invariant |digest| == i
        invariant forall k: nat | k < i :: digest[k] == Digest(h)[k]
      {
        DigestAt(h, i);
        WordOfRegs(state[..], i / 4);
        digest := digest + [ByteAt(state[i / 4], i % 4)];
      }
    }

    /** Both outputs are optional, as in the source: a null pointer is skipped. The string is
        written with its terminating NUL. */
    method Finish(digest: array?<Byte>, digestStr: array?<char>)
      requires Valid()
      requires digest != null ==> digest.Length == 20 && digest != buffer
      requires digestStr != null ==> digestStr.Length == 41
      modifies this, state, buffer, digest, digestStr
      ensures Valid() && fed == Padded(old(fed))
      ensures digest != null ==> digest[..] == Sha1(old(fed))
      ensures digestStr != null ==> digestStr[..] == HexString(Sha1(old(fed))) + ['\0']
    {
      hide Sha1, Holds, Padded;
      var tmp := Final();
      if digest != null {
        Copy(digest, 0, tmp);
      }
      if digestStr != null {
        WriteHex(digestStr, tmp);
      }
    }
  }

  /** The second half of `Finish`. */
  method WriteHex(digestStr: array<char>, bytes: seq<Byte>)
    requires digestStr.Length == 2 * |bytes| + 1
    modifies digestStr
    ensures digestStr[..] == HexString(bytes) + ['\0']
  {
    for i := 0 to |bytes|
      invariant forall k: nat | k < 2 * i :: digestStr[k] == HexString(bytes)[k]
    {
      HexStringAt(bytes, i);
      digestStr[2 * i] := Hex.LOWER[ByteValue(bytes[i]) / 16];
      digestStr[2 * i + 1] := Hex.LOWER[ByteValue(bytes[i]) % 16];
    }
    digestStr[2 * |bytes|] := '\0';
  }

  /** `SHA1::HashBuffer`. */
  method HashBuffer(littleEndian: bool, digest: array?<Byte>, digestStr: array?<char>, data: seq<Byte>)
    requires digest != null ==> digest.Length == 20
    requires digestStr != null ==> digestStr.Length == 41
    modifies digest, digestStr
    ensures digest != null ==> digest[..] == Sha1(data)
    ensures digestStr != null ==> digestStr[..] == HexString(Sha1(data)) + ['\0']
  {
    hide Sha1, Padded;
    var tmp := new SHA1(littleEndian);
    tmp.Update(data);
    assert [] + data == data;
    tmp.Finish(digest, digestStr);
  }

  function Joined(chunks: seq<seq<Byte>>): seq<Byte> {
    if chunks == [] then [] else Joined(chunks[..|chunks| - 1]) + chunks[|chunks| - 1]
  }

  /** Any run of `Update` calls, however the data is cut, hashes the joined bytes. */
  method HashChunks(littleEndian: bool, chunks: seq<seq<Byte>>) returns (digest: seq<Byte>)
    ensures digest == Sha1(Joined(chunks))
  {
    hide Sha1, Padded;
    var tmp := new SHA1(littleEndian);
    for i := 0 to |chunks|
      invariant tmp.Valid() && fresh(tmp) && fresh(tmp.state) && fresh(tmp.buffer)
      invariant tmp.fed == Joined(chunks[..i])
    {
      assert chunks[..i + 1][..i] == chunks[..i];
      tmp.Update(chunks[i]);
    }
    assert chunks[..|chunks|] == chunks;
    digest := tmp.Final();
  }

  /** Two lower-case digits for each byte. */
  function HexString(bytes: seq<Byte>): (s: string)
    ensures |s| == 2 * |bytes|
  {
    if bytes == [] then ""
    else [Hex.LOWER[ByteValue(bytes[0]) / 16], Hex.LOWER[ByteValue(bytes[0]) % 16]] + HexString(bytes[1..])
  }

  lemma {:induction false} HexStringAt(bytes: seq<Byte>, i: nat)
    requires i < |bytes|
    ensures HexString(bytes)[2 * i] == Hex.LOWER[ByteValue(bytes[i]) / 16]
    ensures HexString(bytes)[2 * i + 1] == Hex.LOWER[ByteValue(bytes[i]) % 16]
  {
    if i > 0 {
      HexStringAt(bytes[1..], i - 1);
    }
  }
}
