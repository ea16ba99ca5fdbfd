/** Hexadecimal digits, as written by the SHA-1 digest string, the log dump and the escaper. */
module Hex {
  const LOWER: string := "0123456789abcdef"
  const UPPER: string := "0123456789ABCDEF"

  function Digit(n: nat, upper: bool): char
    requires n < 16
  {
    if upper then UPPER[n] else LOWER[n]
  }

  predicate IsDigit(c: char) {
    '0' <= c <= '9' || 'A' <= c <= 'F' || 'a' <= c <= 'f'
  }

  function Value(c: char): (n: nat)
    requires IsDigit(c)
    ensures n < 16
  {
    if c <= '9' then c as nat - '0' as nat
    else if c <= 'F' then c as nat - 'A' as nat + 10
    else c as nat - 'a' as nat + 10
  }

  lemma DigitValue(n: nat, upper: bool)
    requires n < 16
    ensures IsDigit(Digit(n, upper)) && Value(Digit(n, upper)) == n
  {
  }

  /** The digits, spelt out. */
  lemma DigitIs(n: nat)
    requires n < 16
    ensures Digit(n, false) == LOWER[n] == if n < 10 then '0' + n as char else 'a' + (n - 10) as char
    ensures Digit(n, true) == UPPER[n] == if n < 10 then '0' + n as char else 'A' + (n - 10) as char
  {
  }

  /** The length of the run of digits at the front of `t`. */
  function Run(t: string): (n: nat)
    ensures n <= |t| && forall i | 0 <= i < n :: IsDigit(t[i])
    ensures n < |t| ==> !IsDigit(t[n])
  {
    if t == "" || !IsDigit(t[0]) then 0 else 1 + Run(t[1..])
  }

  function Number(t: string): nat
    requires forall i | 0 <= i < |t| :: IsDigit(t[i])
  {
    if t == "" then 0 else 16 * Number(t[..|t| - 1]) + Value(t[|t| - 1])
  }

  lemma RunOf(digits: string, rest: string)
    requires forall i | 0 <= i < |digits| :: IsDigit(digits[i])
    requires rest == "" || !IsDigit(rest[0])
    ensures Run(digits + rest) == |digits|
  {
    var t := digits + rest;
    assert forall i | 0 <= i < |digits| :: t[i] == digits[i];
    assert rest != "" ==> t[|digits|] == rest[0];
  }

  /** `%0*X`: at least `width` digits. */
  function Padded(n: nat, width: nat): (s: string)
    ensures |s| >= width && |s| > 0 && forall i | 0 <= i < |s| :: IsDigit(s[i])
    decreases n, width
  {
    DigitValue(n % 16, true);
    if n < 16 && width <= 1 then [Digit(n, true)]
    else Padded(n / 16, if width == 0 then 0 else width - 1) + [Digit(n % 16, true)]
  }

  lemma {:induction false} PaddedValue(n: nat, width: nat)
    ensures Number(Padded(n, width)) == n
    decreases n, width
  {
    DigitValue(n % 16, true);
    var s := Padded(n, width);
    if n < 16 && width <= 1 {
      assert s[..0] == "";
    } else {
      PaddedValue(n / 16, if width == 0 then 0 else width - 1);
      assert s[..|s| - 1] == Padded(n / 16, if width == 0 then 0 else width - 1);
    }
  }

  function Pow16(k: nat): nat {
    if k == 0 then 1 else 16 * Pow16(k - 1)
  }

  /** A number is padded to the width asked for, and no further than it needs. */
  lemma {:induction false} PaddedWidth(n: nat, width: nat)
    requires width > 0 && n < Pow16(width)
    ensures |Padded(n, width)| == width
    decreases width
  {
    if width > 1 {
      PaddedWidth(n / 16, width - 1);
    }
  }

  lemma {:induction false} PaddedIsUpper(n: nat, width: nat)
    ensures forall i | 0 <= i < |Padded(n, width)| ::
      '0' <= Padded(n, width)[i] <= '9' || 'A' <= Padded(n, width)[i] <= 'F'
    decreases n, width
  {
    DigitIs(n % 16);
    if !(n < 16 && width <= 1) {
      PaddedIsUpper(n / 16, if width == 0 then 0 else width - 1);
    }
  }
}
