/** src/sha1.cpp: the block transform, with its unrolled rounds, renamed registers and 16-word
    schedule overwritten in place. */
module Sha1Transform {
  import opened Sha1Spec

  // ----- the schedule kept in sixteen words -----

  /** How a little-endian processor reads the four bytes of word `i`. */
  function LoadLittle(block: seq<Byte>, i: nat): Word
    requires |block| == BLOCK && i < 16
  {
    block[4 * i] as Word | (block[4 * i + 1] as Word << 8) |
    (block[4 * i + 2] as Word << 16) | (block[4 * i + 3] as Word << 24)
  }

  /** Word `i` of the workspace just after the block is copied into it. */
  function Raw(littleEndian: bool, block: seq<Byte>, i: nat): Word
    requires |block| == BLOCK && i < 16
  {
    if littleEndian then LoadLittle(block, i) else Load(block, 4 * i)
  }

  function SwapWord(x: Word): Word {
    (((x << 24) | (x >> 8)) & 0xFF00FF00) | (((x << 8) | (x >> 24)) & 0x00FF00FF)
  }

  lemma SwapMakesBigEndian(block: seq<Byte>, i: nat)
    requires |block| == BLOCK && i < 16
    ensures SwapWord(LoadLittle(block, i)) == Load(block, 4 * i)
  {
  }

  /** Before round `t` the sixteen words hold the last (at most sixteen) schedule words made, each
      at its index modulo 16, and the words not reached yet as they were copied. */
  ghost predicate Window(littleEndian: bool, l: seq<Word>, block: seq<Byte>, t: nat)
    requires |block| == BLOCK
  {
    |l| == 16 &&
    (forall k: nat {:trigger W(block, k)} :: k < t <= k + 16 ==> l[k % 16] == W(block, k)) &&
    (forall k: nat {:trigger Raw(littleEndian, block, k)} :: t <= k < 16 ==> l[k] == Raw(littleEndian, block, k))
  }

  lemma ModApart(k: nat, t: nat)
    requires k < t < k + 16
    ensures k % 16 != t % 16
  {
  }

  lemma WindowStep(littleEndian: bool, l: seq<Word>, block: seq<Byte>, t: nat)
    requires |block| == BLOCK && Window(littleEndian, l, block, t)
    ensures Window(littleEndian, l[t % 16 := W(block, t)], block, t + 1)
  {
    hide W, Raw;
    var m := l[t % 16 := W(block, t)];
    forall k: nat | k < t + 1 <= k + 16
      ensures m[k % 16] == W(block, k)
    {
      if k < t {
        ModApart(k, t);
      }
    }
  }

  /** `blk0`. */
  method Blk0(littleEndian: bool, l: array<Word>, i: nat, ghost block: seq<Byte>) returns (word: Word)
    requires |block| == BLOCK && i < 16 && Window(littleEndian, l[..], block, i)
    modifies l
    ensures word == W(block, i)
    ensures Window(littleEndian, l[..], block, i + 1)
  {
    hide SwapWord, LoadLittle, Load;
    assert l[i] == Raw(littleEndian, block, i);
    WindowStep(littleEndian, l[..], block, i);
    ghost var was := l[..];
    if littleEndian {
      l[i] := SwapWord(l[i]);
      SwapMakesBigEndian(block, i);
    }
    word := l[i];
    assert l[..] == was[i := word];
  }

  /** `blk`: the alternate schedule of section 6.1.3. */
  method Blk(littleEndian: bool, l: array<Word>, i: nat, ghost block: seq<Byte>) returns (word: Word)
    requires |block| == BLOCK && 16 <= i && Window(littleEndian, l[..], block, i)
    modifies l
    ensures word == W(block, i)
    ensures Window(littleEndian, l[..], block, i + 1)
  {
    hide Raw, Load, Expand;
    ghost var was := l[..];
    WindowStep(littleEndian, was, block, i);
    assert was[(i - 3) % 16] == W(block, i - 3);
    assert was[(i - 8) % 16] == W(block, i - 8);
    assert was[(i - 14) % 16] == W(block, i - 14);
    assert was[(i - 16) % 16] == W(block, i - 16);
    word := Expand(l[(i + 13) % 16], l[(i + 8) % 16], l[(i + 2) % 16], l[i % 16]);
    l[i % 16] := word;
    assert l[..] == was[i % 16 := word];
  }

  // ----- the rounds -----

  /** Registers `v, w, x, y, z` hold a, b, c, d, e after `t` turns of the reference loop. */
  ghost predicate At(h: Regs, block: seq<Byte>, t: nat, v: Word, w: Word, x: Word, y: Word, z: Word)
    requires |block| == BLOCK
  {
    Rounds(h, block, t) == Regs(v, w, x, y, z)
  }

  lemma Choice(w: Word, x: Word, y: Word)
    ensures (w & (x ^ y)) ^ y == Ch(w, x, y)
  {
  }

  lemma Majority(w: Word, x: Word, y: Word)
    ensures ((w | x) & y) | (w & x) == Maj(w, x, y)
  {
  }

  /** The sum every round macro adds up in `z`. */
  function Accumulate(z: Word, f: Word, word: Word, k: Word, v: Word): Word {
    z + (f + word + k + Rotl5(v))
  }

  lemma SumOrder(z: Word, f: Word, word: Word, k: Word, v: Word)
    ensures Accumulate(z, f, word, k, v) == Temp(v, f, z, k, word)
  {
    hide Rotl5;
    var r := Rotl5(v);
    assert z + (f + word + k + r) == r + f + z + k + word;
  }

  /** Leaving the new a in `z` and the rotated b in `w` is a turn of the reference loop, if the
      roles of the registers move on by one. */
  lemma Turn(h: Regs, block: seq<Byte>, t: nat, v: Word, w: Word, x: Word, y: Word, z: Word, f: Word, k: Word)
    requires |block| == BLOCK && At(h, block, t, v, w, x, y, z)
    requires f == F(t, w, x, y) && k == K(t)
    ensures At(h, block, t + 1, Accumulate(z, f, W(block, t), k, v), v, Rotl30(w), x, y)
  {
    hide F, K, W, Rotl30, Accumulate, Temp;
    SumOrder(z, f, W(block, t), k, v);
  }

  method R0(littleEndian: bool, l: array<Word>, v: Word, w: Word, x: Word, y: Word, z: Word, i: nat,
            ghost h: Regs, ghost block: seq<Byte>) returns (z': Word, w': Word)
    requires |block| == BLOCK && i < 16 && Window(littleEndian, l[..], block, i) && At(h, block, i, v, w, x, y, z)
    modifies l
    ensures Window(littleEndian, l[..], block, i + 1) && At(h, block, i + 1, z', v, w', x, y)
  {
    hide Window, W, At, Rotl5, Rotl30, Maj, Ch, Accumulate;
    Choice(w, x, y);
    var f := (w & (x ^ y)) ^ y;
    Turn(h, block, i, v, w, x, y, z, f, 0x5A827999);
    var word := Blk0(littleEndian, l, i, block);
    z' := Accumulate(z, f, word, 0x5A827999, v);
    w' := Rotl30(w);
  }

  method R1(littleEndian: bool, l: array<Word>, v: Word, w: Word, x: Word, y: Word, z: Word, i: nat,
            ghost h: Regs, ghost block: seq<Byte>) returns (z': Word, w': Word)
    requires |block| == BLOCK && 16 <= i < 20 && Window(littleEndian, l[..], block, i) && At(h, block, i, v, w, x, y, z)
    modifies l
    ensures Window(littleEndian, l[..], block, i + 1) && At(h, block, i + 1, z', v, w', x, y)
  {
    hide Window, W, At, Rotl5, Rotl30, Maj, Ch, Accumulate;
    Choice(w, x, y);
    var f := (w & (x ^ y)) ^ y;
    Turn(h, block, i, v, w, x, y, z, f, 0x5A827999);
    var word := Blk(littleEndian, l, i, block);
    z' := Accumulate(z, f, word, 0x5A827999, v);
    w' := Rotl30(w);
  }

  method R2(littleEndian: bool, l: array<Word>, v: Word, w: Word, x: Word, y: Word, z: Word, i: nat,
            ghost h: Regs, ghost block: seq<Byte>) returns (z': Word, w': Word)
    requires |block| == BLOCK && 20 <= i < 40 && Window(littleEndian, l[..], block, i) && At(h, block, i, v, w, x, y, z)
    modifies l
    ensures Window(littleEndian, l[..], block, i + 1) && At(h, block, i + 1, z', v, w', x, y)
  {
    hide Window, W, At, Rotl5, Rotl30, Maj, Ch, Accumulate;
    var f := w ^ x ^ y;
    Turn(h, block, i, v, w, x, y, z, f, 0x6ED9EBA1);
    var word := Blk(littleEndian, l, i, block);
    z' := Accumulate(z, f, word, 0x6ED9EBA1, v);
    w' := Rotl30(w);
  }

  method R3(littleEndian: bool, l: array<Word>, v: Word, w: Word, x: Word, y: Word, z: Word, i: nat,
            ghost h: Regs, ghost block: seq<Byte>) returns (z': Word, w': Word)
    requires |block| == BLOCK && 40 <= i < 60 && Window(littleEndian, l[..], block, i) && At(h, block, i, v, w, x, y, z)
    modifies l
    ensures Window(littleEndian, l[..], block, i + 1) && At(h, block, i + 1, z', v, w', x, y)
  {
    hide Window, W, At, Rotl5, Rotl30, Maj, Ch, Accumulate;
    Majority(w, x, y);
    var f := ((w | x) & y) | (w & x);
    Turn(h, block, i, v, w, x, y, z, f, 0x8F1BBCDC);
    var word := Blk(littleEndian, l, i, block);
    z' := Accumulate(z, f, word, 0x8F1BBCDC, v);
    w' := Rotl30(w);
  }

  method R4(littleEndian: bool, l: array<Word>, v: Word, w: Word, x: Word, y: Word, z: Word, i: nat,
            ghost h: Regs, ghost block: seq<Byte>) returns (z': Word, w': Word)
    requires |block| == BLOCK && 60 <= i < 80 && Window(littleEndian, l[..], block, i) && At(h, block, i, v, w, x, y, z)
    modifies l
    ensures Window(littleEndian, l[..], block, i + 1) && At(h, block, i + 1, z', v, w', x, y)
  {
    hide Window, W, At, Rotl5, Rotl30, Maj, Ch, Accumulate;
    var f := w ^ x ^ y;
    Turn(h, block, i, v, w, x, y, z, f, 0xCA62C1D6);
    var word := Blk(littleEndian, l, i, block);
    z' := Accumulate(z, f, word, 0xCA62C1D6, v);
    w' := Rotl30(w);
  }

  function ToRegs(s: seq<Word>): Regs
    requires |s| == 5
  {
    Regs(s[0], s[1], s[2], s[3], s[4])
  }

  /** Rounds 0 to 19, unrolled: the roles of the five registers move on by one each time. */
  method Rounds0(littleEndian: bool, l: array<Word>, v: Word, w: Word, x: Word, y: Word, z: Word,
                  ghost h: Regs, ghost block: seq<Byte>) returns (a: Word, b: Word, c: Word, d: Word, e: Word)
    requires |block| == BLOCK && Window(littleEndian, l[..], block, 0) && At(h, block, 0, v, w, x, y, z)
    modifies l
    ensures Window(littleEndian, l[..], block, 20) && At(h, block, 20, a, b, c, d, e)
  {
    hide At, Window;
    a, b, c, d, e := v, w, x, y, z;
    e, b := R0(littleEndian, l, a, b, c, d, e, 0, h, block);
    d, a := R0(littleEndian, l, e, a, b, c, d, 1, h, block);
    c, e := R0(littleEndian, l, d, e, a, b, c, 2, h, block);
    b, d := R0(littleEndian, l, c, d, e, a, b, 3, h, block);
    a, c := R0(littleEndian, l, b, c, d, e, a, 4, h, block);
    e, b := R0(littleEndian, l, a, b, c, d, e, 5, h, block);
    d, a := R0(littleEndian, l, e, a, b, c, d, 6, h, block);
    c, e := R0(littleEndian, l, d, e, a, b, c, 7, h, block);
    b, d := R0(littleEndian, l, c, d, e, a, b, 8, h, block);
    a, c := R0(littleEndian, l, b, c, d, e, a, 9, h, block);
    e, b := R0(littleEndian, l, a, b, c, d, e, 10, h, block);
    d, a := R0(littleEndian, l, e, a, b, c, d, 11, h, block);
    c, e := R0(littleEndian, l, d, e, a, b, c, 12, h, block);
    b, d := R0(littleEndian, l, c, d, e, a, b, 13, h, block);
    a, c := R0(littleEndian, l, b, c, d, e, a, 14, h, block);
    e, b := R0(littleEndian, l, a, b, c, d, e, 15, h, block);
    d, a := R1(littleEndian, l, e, a, b, c, d, 16, h, block);
    c, e := R1(littleEndian, l, d, e, a, b, c, 17, h, block);
    b, d := R1(littleEndian, l, c, d, e, a, b, 18, h, block);
    a, c := R1(littleEndian, l, b, c, d, e, a, 19, h, block);
  }

  /** Rounds 20 to 39, unrolled: the roles of the five registers move on by one each time. */
  method Rounds20(littleEndian: bool, l: array<Word>, v: Word, w: Word, x: Word, y: Word, z: Word,
                  ghost h: Regs, ghost block: seq<Byte>) returns (a: Word, b: Word, c: Word, d: Word, e: Word)
    requires |block| == BLOCK && Window(littleEndian, l[..], block, 20) && At(h, block, 20, v, w, x, y, z)
    modifies l
    ensures Window(littleEndian, l[..], block, 40) && At(h, block, 40, a, b, c, d, e)
  {
    hide At, Window;
    a, b, c, d, e := v, w, x, y, z;
    e, b := R2(littleEndian, l, a, b, c, d, e, 20, h, block);
    d, a := R2(littleEndian, l, e, a, b, c, d, 21, h, block);
    c, e := R2(littleEndian, l, d, e, a, b, c, 22, h, block);
    b, d := R2(littleEndian, l, c, d, e, a, b, 23, h, block);
    a, c := R2(littleEndian, l, b, c, d, e, a, 24, h, block);
    e, b := R2(littleEndian, l, a, b, c, d, e, 25, h, block);
    d, a := R2(littleEndian, l, e, a, b, c, d, 26, h, block);
    c, e := R2(littleEndian, l, d, e, a, b, c, 27, h, block);
    b, d := R2(littleEndian, l, c, d, e, a, b, 28, h, block);
    a, c := R2(littleEndian, l, b, c, d, e, a, 29, h, block);
    e, b := R2(littleEndian, l, a, b, c, d, e, 30, h, block);
    d, a := R2(littleEndian, l, e, a, b, c, d, 31, h, block);
    c, e := R2(littleEndian, l, d, e, a, b, c, 32, h, block);
    b, d := R2(littleEndian, l, c, d, e, a, b, 33, h, block);
    a, c := R2(littleEndian, l, b, c, d, e, a, 34, h, block);
    e, b := R2(littleEndian, l, a, b, c, d, e, 35, h, block);
    d, a := R2(littleEndian, l, e, a, b, c, d, 36, h, block);
    c, e := R2(littleEndian, l, d, e, a, b, c, 37, h, block);
    b, d := R2(littleEndian, l, c, d, e, a, b, 38, h, block);
    a, c := R2(littleEndian, l, b, c, d, e, a, 39, h, block);
  }

  /** Rounds 40 to 59, unrolled: the roles of the five registers move on by one each time. */
  method Rounds40(littleEndian: bool, l: array<Word>, v: Word, w: Word, x: Word, y: Word, z: Word,
                  ghost h: Regs, ghost block: seq<Byte>) returns (a: Word, b: Word, c: Word, d: Word, e: Word)
    requires |block| == BLOCK && Window(littleEndian, l[..], block, 40) && At(h, block, 40, v, w, x, y, z)
    modifies l
    ensures Window(littleEndian, l[..], block, 60) && At(h, block, 60, a, b, c, d, e)
  {
    hide At, Window;
    a, b, c, d, e := v, w, x, y, z;
    e, b := R3(littleEndian, l, a, b, c, d, e, 40, h, block);
    d, a := R3(littleEndian, l, e, a, b, c, d, 41, h, block);
    c, e := R3(littleEndian, l, d, e, a, b, c, 42, h, block);
    b, d := R3(littleEndian, l, c, d, e, a, b, 43, h, block);
    a, c := R3(littleEndian, l, b, c, d, e, a, 44, h, block);
    e, b := R3(littleEndian, l, a, b, c, d, e, 45, h, block);
    d, a := R3(littleEndian, l, e, a, b, c, d, 46, h, block);
    c, e := R3(littleEndian, l, d, e, a, b, c, 47, h, block);
    b, d := R3(littleEndian, l, c, d, e, a, b, 48, h, block);
    a, c := R3(littleEndian, l, b, c, d, e, a, 49, h, block);
    e, b := R3(littleEndian, l, a, b, c, d, e, 50, h, block);
    d, a := R3(littleEndian, l, e, a, b, c, d, 51, h, block);
    c, e := R3(littleEndian, l, d, e, a, b, c, 52, h, block);
    b, d := R3(littleEndian, l, c, d, e, a, b, 53, h, block);
    a, c := R3(littleEndian, l, b, c, d, e, a, 54, h, block);
    e, b := R3(littleEndian, l, a, b, c, d, e, 55, h, block);
    d, a := R3(littleEndian, l, e, a, b, c, d, 56, h, block);
    c, e := R3(littleEndian, l, d, e, a, b, c, 57, h, block);
    b, d := R3(littleEndian, l, c, d, e, a, b, 58, h, block);
    a, c := R3(littleEndian, l, b, c, d, e, a, 59, h, block);
  }

  /** Rounds 60 to 79, unrolled: the roles of the five registers move on by one each time. */
  method Rounds60(littleEndian: bool, l: array<Word>, v: Word, w: Word, x: Word, y: Word, z: Word,
                  ghost h: Regs, ghost block: seq<Byte>) returns (a: Word, b: Word, c: Word, d: Word, e: Word)
    requires |block| == BLOCK && Window(littleEndian, l[..], block, 60) && At(h, block, 60, v, w, x, y, z)
    modifies l
    ensures Window(littleEndian, l[..], block, 80) && At(h, block, 80, a, b, c, d, e)
  {
    hide At, Window;
    a, b, c, d, e := v, w, x, y, z;
    e, b := R4(littleEndian, l, a, b, c, d, e, 60, h, block);
    d, a := R4(littleEndian, l, e, a, b, c, d, 61, h, block);
    c, e := R4(littleEndian, l, d, e, a, b, c, 62, h, block);
    b, d := R4(littleEndian, l, c, d, e, a, b, 63, h, block);
    a, c := R4(littleEndian, l, b, c, d, e, a, 64, h, block);
    e, b := R4(littleEndian, l, a, b, c, d, e, 65, h, block);
    d, a := R4(littleEndian, l, e, a, b, c, d, 66, h, block);
    c, e := R4(littleEndian, l, d, e, a, b, c, 67, h, block);
    b, d := R4(littleEndian, l, c, d, e, a, b, 68, h, block);
    a, c := R4(littleEndian, l, b, c, d, e, a, 69, h, block);
    e, b := R4(littleEndian, l, a, b, c, d, e, 70, h, block);
    d, a := R4(littleEndian, l, e, a, b, c, d, 71, h, block);
    c, e := R4(littleEndian, l, d, e, a, b, c, 72, h, block);
    b, d := R4(littleEndian, l, c, d, e, a, b, 73, h, block);
    a, c := R4(littleEndian, l, b, c, d, e, a, 74, h, block);
    e, b := R4(littleEndian, l, a, b, c, d, e, 75, h, block);
    d, a := R4(littleEndian, l, e, a, b, c, d, 76, h, block);
    c, e := R4(littleEndian, l, d, e, a, b, c, 77, h, block);
    b, d := R4(littleEndian, l, c, d, e, a, b, 78, h, block);
    a, c := R4(littleEndian, l, b, c, d, e, a, 79, h, block);
  }

  lemma Start(littleEndian: bool, l: seq<Word>, h: Regs, block: seq<Byte>)
    requires |block| == BLOCK && |l| == 16
    requires forall k {:trigger Raw(littleEndian, block, k)} :: 0 <= k < 16 ==> l[k] == Raw(littleEndian, block, k)
    ensures Window(littleEndian, l, block, 0) && At(h, block, 0, h.a, h.b, h.c, h.d, h.e)
  {
    hide W, Raw;
  }

  lemma Finished(h: Regs, block: seq<Byte>, r: Regs)
    requires |block| == BLOCK && At(h, block, 80, r.a, r.b, r.c, r.d, r.e)
    ensures Compress(h, block) == Add(h, r)
  {
    hide Rounds, Add;
  }

  /** `SHA1::Transform`. */
  method Transform(littleEndian: bool, state: array<Word>, buffer: seq<Byte>)
    requires state.Length == 5 && |buffer| == BLOCK
    modifies state
    ensures ToRegs(state[..]) == Compress(ToRegs(old(state[..])), buffer)
  {
    hide Raw, Window, At, Compress, Plus;
    ghost var h := ToRegs(state[..]);
    var l := new Word[16](i requires 0 <= i < 16 => Raw(littleEndian, buffer, i));
    var a, b, c, d, e := state[0], state[1], state[2], state[3], state[4];
    Start(littleEndian, l[..], h, buffer);
    a, b, c, d, e := Rounds0(littleEndian, l, a, b, c, d, e, h, buffer);
    a, b, c, d, e := Rounds20(littleEndian, l, a, b, c, d, e, h, buffer);
    a, b, c, d, e := Rounds40(littleEndian, l, a, b, c, d, e, h, buffer);
    a, b, c, d, e := Rounds60(littleEndian, l, a, b, c, d, e, h, buffer);
    Finished(h, buffer, Regs(a, b, c, d, e));
    state[0], state[1], state[2], state[3], state[4] :=
      Plus(state[0], a), Plus(state[1], b), Plus(state[2], c), Plus(state[3], d), Plus(state[4], e);
  }
}
