/** Unsigned integers of a given width, and their bits. */
module Bits {

  function Pow2(k: nat): (p: nat)
    ensures p > 0
  {
    if k == 0 then 1 else 2 * Pow2(k - 1)
  }

  predicate Bit(v: nat, k: nat) {
    if k == 0 then v % 2 == 1 else Bit(v / 2, k - 1)
  }

  function And(a: nat, b: nat): nat
    decreases a
  {
    if a == 0 then 0 else 2 * And(a / 2, b / 2) + if a % 2 == 1 && b % 2 == 1 then 1 else 0
  }

  function Or(a: nat, b: nat): nat
    decreases a
  {
    if a == 0 then b else 2 * Or(a / 2, b / 2) + if a % 2 == 1 || b % 2 == 1 then 1 else 0
  }

  /** `x << 1` in a type of `width` bits. */
  function ShiftLeft(x: nat, width: nat): nat {
    2 * x % Pow2(width)
  }

  lemma Halves(n: nat, q: nat, r: nat)
    requires n == 2 * q + r && r < 2
    ensures n / 2 == q && n % 2 == r
  {
  }

  lemma AndStep(a: nat, b: nat)
    ensures And(a, b) / 2 == And(a / 2, b / 2)
    ensures And(a, b) % 2 == if a % 2 == 1 && b % 2 == 1 then 1 else 0
  {
    if a != 0 {
      Halves(And(a, b), And(a / 2, b / 2), if a % 2 == 1 && b % 2 == 1 then 1 else 0);
    }
  }

  lemma OrStep(a: nat, b: nat)
    ensures Or(a, b) / 2 == Or(a / 2, b / 2)
    ensures Or(a, b) % 2 == if a % 2 == 1 || b % 2 == 1 then 1 else 0
  {
    if a != 0 {
      Halves(Or(a, b), Or(a / 2, b / 2), if a % 2 == 1 || b % 2 == 1 then 1 else 0);
    }
  }

  lemma {:induction false} AndBits(a: nat, b: nat, k: nat)
    ensures Bit(And(a, b), k) <==> Bit(a, k) && Bit(b, k)
    decreases k
  {
    hide And;
    AndStep(a, b);
    if k > 0 {
      AndBits(a / 2, b / 2, k - 1);
    }
  }

  lemma {:induction false} OrBits(a: nat, b: nat, k: nat)
    ensures Bit(Or(a, b), k) <==> Bit(a, k) || Bit(b, k)
    decreases k
  {
    hide Or;
    OrStep(a, b);
    if k > 0 {
      OrBits(a / 2, b / 2, k - 1);
    }
  }

  lemma {:induction false} ZeroBits(k: nat)
    ensures !Bit(0, k)
  {
    if k > 0 {
      ZeroBits(k - 1);
    }
  }

  lemma {:induction false} Pow2Bits(n: nat, k: nat)
    ensures Bit(Pow2(n), k) <==> k == n
  {
    if k > 0 && n > 0 {
      Pow2Bits(n - 1, k - 1);
      assert Pow2(n) / 2 == Pow2(n - 1);
    } else if n == 0 && k > 0 {
      ZeroBits(k - 1);
    }
  }

  lemma {:induction false} SameBits(a: nat, b: nat, width: nat)
    requires a < Pow2(width) && b < Pow2(width) && forall k: nat | k < width :: Bit(a, k) <==> Bit(b, k)
    ensures a == b
  {
    if width > 0 {
      assert Bit(a, 0) <==> Bit(b, 0);
      forall k: nat | k < width - 1
        ensures Bit(a / 2, k) <==> Bit(b / 2, k)
      {
        assert Bit(a, k + 1) <==> Bit(b, k + 1);
      }
      SameBits(a / 2, b / 2, width - 1);
    }
  }

  lemma {:induction false} OrFits(a: nat, b: nat, width: nat)
    requires a < Pow2(width) && b < Pow2(width)
    ensures Or(a, b) < Pow2(width)
  {
    if width > 0 {
      OrFits(a / 2, b / 2, width - 1);
    }
  }

  lemma {:induction false} AndFits(a: nat, b: nat, width: nat)
    requires a < Pow2(width)
    ensures And(a, b) < Pow2(width)
  {
    if width > 0 {
      AndFits(a / 2, b / 2, width - 1);
    }
  }

  lemma {:induction false} Pow2Grows(k: nat, n: nat)
    requires k < n
    ensures 2 * Pow2(k) <= Pow2(n)
  {
    if k + 1 < n {
      Pow2Grows(k, n - 1);
    }
  }

  /** A single bit moves up by one and drops out at the width. */
  lemma ShiftSingleBit(k: nat, width: nat)
    requires k < width
    ensures ShiftLeft(Pow2(k), width) == if k + 1 < width then Pow2(k + 1) else 0
  {
    if k + 1 < width {
      Pow2Grows(k + 1, width);
      SmallModulo(Pow2(k + 1), Pow2(width));
    } else {
      assert Pow2(k + 1) % Pow2(width) == 0;
    }
  }

  lemma SmallModulo(a: nat, b: nat)
    requires a < b
    ensures a % b == a
  {
  }

  lemma SingleBitTest(v: nat, k: nat)
    ensures And(v, Pow2(k)) != 0 <==> Bit(v, k)
  {
    AndBits(v, Pow2(k), k);
    Pow2Bits(k, k);
    ZeroBits(k);
    if !Bit(v, k) {
      AndSingleIsZero(v, k);
    }
  }

  lemma Pow2Step(k: nat)
    requires k > 0
    ensures Pow2(k) / 2 == Pow2(k - 1) && Pow2(k) % 2 == 0
  {
    Halves(Pow2(k), Pow2(k - 1), 0);
  }

  lemma {:induction false} AndSingleIsZero(v: nat, k: nat)
    requires !Bit(v, k)
    ensures And(v, Pow2(k)) == 0
  {
    hide And;
    AndStep(v, Pow2(k));
    if k == 0 {
      AndZero(v / 2);
    } else {
      AndSingleIsZero(v / 2, k - 1);
      Pow2Step(k);
    }
  }

  lemma {:induction false} AndZero(v: nat)
    ensures And(v, 0) == 0
    decreases v
  {
    if v != 0 {
      AndZero(v / 2);
    }
  }

  lemma ByteUp(b: bv8)
    requires b != 255
    ensures (b + 1) as int == b as int + 1
  {
  }

  lemma {:induction false} ByteOf(n: nat) returns (b: bv8)
    requires n < 256
    ensures b as int == n
  {
    if n == 0 {
      b := 0;
    } else {
      b := ByteOf(n - 1);
      ByteUp(b);
      b := b + 1;
    }
  }

  lemma ByteBack(b: bv8, n: nat)
    requires b as int == n
    ensures n < 256 && n as bv8 == b
  {
  }

  /** A small number goes through a byte unchanged. */
  lemma ByteAndBack(n: nat)
    requires n < 256
    ensures n as bv8 as int == n
  {
    var b := ByteOf(n);
    ByteBack(b, n);
  }
}
