/** src/log.cpp: `LogStringPrintable`, against the escape sequences of section 6.4.4.4 of
    ISO/IEC 9899:2011. */
module Escape {
  import Hex
  import opened Log
  import opened Options

  /** A C string: bytes, none of them NUL. */
  type CString = s: string | forall i | 0 <= i < |s| :: 0 < s[i] as int < 256

  // ----- what is written -----

  predicate Printable(c: char) {
    32 <= c as int <= 126
  }

  function OctalDigit(n: nat): char
    requires n < 8
  {
    "01234567"[n]
  }

  /** `\%03o` or `\x%02x`. */
  function Numeric(x: nat, hexDigitFollows: bool): (s: string)
    requires x < 256
    ensures |s| == 4
  {
    if hexDigitFollows then ['\\', OctalDigit(x / 64), OctalDigit(x / 8 % 8), OctalDigit(x % 8)]
    else ['\\', 'x', Hex.Digit(x / 16, false), Hex.Digit(x % 16, false)]
  }

  function EscapeChar(c: char, hexDigitFollows: bool): string
    requires c as int < 256
  {
    if Printable(c) then [c]
    else if c == '\n' then "\\n"
    else if c == '\t' then "\\t"
    else if c == '\r' then "\\r"
    else if c == 8 as char then "\\b"
    else Numeric(c as nat, hexDigitFollows)
  }

  function Escaped(s: CString): string {
    if s == "" then ""
    else EscapeChar(s[0], |s| > 1 && Hex.IsDigit(s[1])) + Escaped(s[1..])
  }

  // ----- how C reads it -----

  predicate IsOctal(c: char) {
    '0' <= c <= '7'
  }

  function OctalRun(t: string, most: nat): (n: nat)
    ensures n <= |t| && n <= most && forall i | 0 <= i < n :: IsOctal(t[i])
    ensures n < |t| && n < most ==> !IsOctal(t[n])
    decreases most
  {
    if most == 0 || t == "" || !IsOctal(t[0]) then 0 else 1 + OctalRun(t[1..], most - 1)
  }

  function OctalValue(c: char): nat
    requires IsOctal(c)
  {
    c as int - '0' as int
  }

  function OctalNumber(t: string): nat
    requires forall i | 0 <= i < |t| :: IsOctal(t[i])
  {
    if t == "" then 0 else 8 * OctalNumber(t[..|t| - 1]) + OctalValue(t[|t| - 1])
  }

  function Simple(c: char): Option<char> {
    match c
    case '\\' => Some('\\')
    case '\'' => Some('\'')
    case '\"' => Some('\"')
    case '?' => Some('?')
    case 'a' => Some(7 as char)
    case 'b' => Some(8 as char)
    case 'f' => Some(12 as char)
    case 'n' => Some('\n')
    case 'r' => Some('\r')
    case 't' => Some('\t')
    case 'v' => Some(11 as char)
    case _ => None
  }

  datatype Read = Bad | Got(c: char, length: nat)

  /** The character at the front of `t` and how much of `t` spells it. A hexadecimal escape takes
      every hexadecimal digit there is, an octal one at most three. */
  function ReadOne(t: string): (r: Read)
    requires t != ""
    ensures r.Got? ==> 0 < r.length <= |t|
  {
    if t[0] != '\\' then Got(t[0], 1)
    else if |t| == 1 then Bad
    else if t[1] == 'x' then
      var n := Hex.Run(t[2..]);
      if n == 0 || Hex.Number(t[2..2 + n]) > 255 then Bad else Got(Hex.Number(t[2..2 + n]) as char, 2 + n)
    else if IsOctal(t[1]) then
      var n := OctalRun(t[1..], 3);
      if OctalNumber(t[1..1 + n]) > 255 then Bad else Got(OctalNumber(t[1..1 + n]) as char, 1 + n)
    else match Simple(t[1])
      case None => Bad
      case Some(c) => Got(c, 2)
  }

  function Decode(t: string): Option<string>
    decreases |t|
  {
    if t == "" then Some("")
    else match ReadOne(t)
      case Bad => None
      case Got(c, n) =>
        match Decode(t[n..])
        case None => None
        case Some(rest) => Some([c] + rest)
  }

  // ----- the two together -----

  /** What is written for a byte: itself if printable, backslash and a letter for four of the rest, and for
      the others three octal digits if a hexadecimal digit follows, and two hexadecimal ones if not. */
  lemma EscapeIs(c: char, follows: bool)
    requires c as int < 256
    ensures var e, x := EscapeChar(c, follows), c as nat;
      && (32 <= x <= 126 ==> e == [c])
      && (c == '\n' ==> e == "\\n") && (c == '\t' ==> e == "\\t")
      && (c == '\r' ==> e == "\\r") && (x == 8 ==> e == "\\b")
      && (!(32 <= x <= 126) && x !in {8, 9, 10, 13} ==>
            e == if follows then "\\" + [Octal(x / 64), Octal(x / 8 % 8), Octal(x % 8)]
                 else "\\x" + [Hex.Digit(x / 16, false), Hex.Digit(x % 16, false)])
  {
    hide Hex.Digit;
    OctalIs(c as nat / 64);
    OctalIs(c as nat / 8 % 8);
    OctalIs(c as nat % 8);
    hide OctalDigit, Octal;
  }

  function Octal(n: nat): char
    requires n < 8
  {
    '0' + n as char
  }

  lemma OctalIs(n: nat)
    requires n < 8
    ensures OctalDigit(n) == Octal(n)
  {
  }

  /** A digit of either kind is printable, and no backslash. */
  lemma DigitPrints(n: nat)
    ensures n < 8 ==> Printable(OctalDigit(n)) && OctalDigit(n) <= '7'
    ensures n < 16 ==> Printable(Hex.Digit(n, false)) && Hex.Digit(n, false) != '\\'
  {
  }

  /** What follows the backslash of an escape: printable, no second backslash, and it does not begin
      with the character escaped. */
  lemma NumericShape(x: nat, hexDigitFollows: bool)
    requires x < 256
    ensures var e := Numeric(x, hexDigitFollows);
      && e[0] == '\\' && (e[1] == 'x' || e[1] <= '7')
      && forall i | 1 <= i < 4 :: Printable(e[i]) && e[i] != '\\'
  {
    hide Hex.Digit, OctalDigit, Printable;
    if hexDigitFollows {
      DigitPrints(x / 64);
      DigitPrints(x / 8 % 8);
      DigitPrints(x % 8);
    } else {
      DigitPrints(x / 16);
      DigitPrints(x % 16);
      XPrints();
    }
  }

  lemma XPrints()
    ensures Printable('x')
  {
  }

  lemma EscapePrints(c: char, follows: bool)
    requires c as int < 256
    ensures var e := EscapeChar(c, follows); e != "" && forall i | 0 <= i < |e| :: Printable(e[i])
  {
    NumericShape(c as nat, follows);
    hide Numeric;
  }

  lemma {:induction false} EscapedIsPrintable(s: CString)
    ensures forall i | 0 <= i < |Escaped(s)| :: Printable(Escaped(s)[i])
  {
    if s == "" {
      EscapedNothing();
    } else {
      hide Escaped, EscapeChar, Printable;
      EscapedCons(s);
      EscapePrints(s[0], |s| > 1 && Hex.IsDigit(s[1]));
      EscapedIsPrintable(s[1..]);
    }
  }

  lemma EscapedFront(s: CString)
    requires s != "" && !Hex.IsDigit(s[0])
    ensures Escaped(s) != "" && !Hex.IsDigit(Escaped(s)[0])
  {
  }

  lemma HexNumberOfTwo(a: char, b: char)
    requires Hex.IsDigit(a) && Hex.IsDigit(b)
    ensures Hex.Number([a, b]) == 16 * Hex.Value(a) + Hex.Value(b)
  {
    assert [a, b][..1] == [a];
    assert Hex.Number([a]) == Hex.Value(a) by {
      assert [a][..0] == "";
    }
  }

  lemma OctalRunOfThree(a: char, b: char, c: char, rest: string)
    requires IsOctal(a) && IsOctal(b) && IsOctal(c)
    ensures OctalRun([a, b, c] + rest, 3) == 3
  {
    assert ([a, b, c] + rest)[1..] == [b, c] + rest;
    assert ([b, c] + rest)[1..] == [c] + rest;
  }

  lemma OctalNumberOfThree(a: char, b: char, c: char)
    requires IsOctal(a) && IsOctal(b) && IsOctal(c)
    ensures OctalNumber([a, b, c]) == 64 * OctalValue(a) + 8 * OctalValue(b) + OctalValue(c)
  {
    assert [a, b, c][..2] == [a, b];
    assert [a, b][..1] == [a];
    assert OctalNumber([a]) == OctalValue(a) by {
      assert [a][..0] == "";
    }
  }

  lemma HexReadsBack(x: nat, rest: string)
    requires x < 256 && (rest == "" || !Hex.IsDigit(rest[0]))
    ensures ReadOne(Numeric(x, false) + rest) == Got(x as char, 4)
  {
    var p, q := Hex.Digit(x / 16, false), Hex.Digit(x % 16, false);
    var t := Numeric(x, false) + rest;
    Hex.DigitValue(x / 16, false);
    Hex.DigitValue(x % 16, false);
    hide Hex.Digit, Hex.Value, Hex.IsDigit, Hex.Run, Hex.Number;
    assert t[2..] == [p, q] + rest;
    Hex.RunOf([p, q], rest);
    assert t[2..4] == [p, q];
    HexNumberOfTwo(p, q);
  }

  lemma OctalDigitValue(n: nat)
    requires n < 8
    ensures IsOctal(OctalDigit(n)) && OctalValue(OctalDigit(n)) == n
  {
  }

  lemma OctalSplit(x: nat)
    ensures 64 * (x / 64) + 8 * (x / 8 % 8) + x % 8 == x
  {
    assert x / 64 == x / 8 / 8;
  }

  lemma OctalReadsBack(x: nat, rest: string)
    requires x < 256
    ensures ReadOne(Numeric(x, true) + rest) == Got(x as char, 4)
  {
    var p, q, r := OctalDigit(x / 64), OctalDigit(x / 8 % 8), OctalDigit(x % 8);
    var t := Numeric(x, true) + rest;
    OctalDigitValue(x / 64);
    OctalDigitValue(x / 8 % 8);
    OctalDigitValue(x % 8);
    hide OctalDigit, OctalValue, OctalRun, OctalNumber;
    assert t[1..] == [p, q, r] + rest;
    OctalRunOfThree(p, q, r, rest);
    assert t[1..4] == [p, q, r];
    OctalNumberOfThree(p, q, r);
    OctalSplit(x);
  }

  /** Each escape is read back whole, whatever follows: this is what choosing octal before a
      hexadecimal digit is for. */
  lemma ReadsBack(c: char, hexDigitFollows: bool, rest: string)
    requires 0 < c as int < 256 && c != '\\'
    requires !hexDigitFollows ==> rest == "" || !Hex.IsDigit(rest[0])
    ensures ReadOne(EscapeChar(c, hexDigitFollows) + rest) == Got(c, |EscapeChar(c, hexDigitFollows)|)
  {
    if !Printable(c) && c != '\n' && c != '\t' && c != '\r' && c != 8 as char {
      hide ReadOne, Numeric;
      if hexDigitFollows {
        OctalReadsBack(c as nat, rest);
      } else {
        HexReadsBack(c as nat, rest);
      }
    } else {
      hide Hex.Run, OctalRun;
    }
  }

  /** Reading the front character and then the rest of an escaped string. */
  lemma DecodeStep(s: CString)
    requires s != "" && s[0] != '\\'
    ensures Decode(Escaped(s)) ==
      match Decode(Escaped(s[1..])) case None => None case Some(rest) => Some([s[0]] + rest)
  {
    hide ReadOne, EscapeChar;
    var follows := |s| > 1 && Hex.IsDigit(s[1]);
    if |s| > 1 && !follows {
      EscapedFront(s[1..]);
    }
    ReadsBack(s[0], follows, Escaped(s[1..]));
    var e := EscapeChar(s[0], follows);
    assert Escaped(s)[|e|..] == Escaped(s[1..]);
  }

  lemma {:induction false} RoundTrip(s: CString)
    requires '\\' !in s
    ensures Decode(Escaped(s)) == Some(s)
  {
    if s != "" {
      DecodeStep(s);
      RoundTrip(s[1..]);
      assert [s[0]] + s[1..] == s;
    }
  }

  // ----- and never with a backslash, which is written as it is -----

  /** A stretch of the escaped text without a backslash is the source's own characters. */
  lemma {:induction false} PlainStretch(s: CString, n: nat)
    requires n <= |Escaped(s)| && '\\' !in Escaped(s)[..n]
    ensures n <= |s| && Escaped(s)[..n] == s[..n] && Escaped(s)[n..] == Escaped(s[n..])
  {
    hide Escaped, EscapeChar;
    EscapedNothing();
    if n > 0 {
      assert s != "";
      var follows := |s| > 1 && Hex.IsDigit(s[1]);
      var rest := Escaped(s[1..]);
      EscapedCons(s);
      EscapePrints(s[0], follows);
      assert Escaped(s)[..n][0] == Escaped(s)[0];
      PlainEscape(s[0], follows);
      CutFront(Escaped(s), s[0], rest, n);
      PlainStretch(s[1..], n - 1);
      CutFront(s, s[0], s[1..], n);
    } else {
      assert s[0..] == s;
    }
  }

  lemma PlainEscape(c: char, follows: bool)
    requires c as int < 256 && EscapeChar(c, follows) != "" && EscapeChar(c, follows)[0] != '\\'
    ensures EscapeChar(c, follows) == [c]
  {
  }

  lemma CutFront(t: string, c: char, rest: string, n: nat)
    requires t == [c] + rest && 0 < n <= |t|
    ensures t[..n] == [c] + rest[..n - 1] && t[n..] == rest[n - 1..]
  {
  }

  /** An escape that does not go on with a second backslash spans none. */
  lemma SpansNoBackslash(t: string)
    requires |t| > 1 && t[0] == '\\' && t[1] != '\\' && ReadOne(t).Got?
    ensures var n := ReadOne(t).length; n >= 2 && '\\' !in t[1..n]
  {
  }

  lemma DecodeUnfold(t: string)
    requires t != ""
    ensures Decode(t).Some? ==> ReadOne(t).Got? && var r := ReadOne(t);
      Decode(t[r.length..]).Some? && Decode(t).value == [r.c] + Decode(t[r.length..]).value
  {
    hide ReadOne;
  }

  lemma DecodeCons(t: string, c: char, n: nat)
    requires t != "" && ReadOne(t) == Got(c, n)
    ensures Decode(t) == match Decode(t[n..]) case None => None case Some(rest) => Some([c] + rest)
  {
    hide ReadOne;
  }

  /** Plain characters in front are read as they are. */
  lemma {:induction false} DecodePlain(p: string, t: string)
    requires '\\' !in p
    ensures Decode(p + t) == match Decode(t) case None => None case Some(rest) => Some(p + rest)
  {
    hide Decode, ReadOne;
    if p == "" {
      assert p + t == t;
      assert Decode(t).Some? ==> "" + Decode(t).value == Decode(t).value;
    } else {
      assert (p + t)[1..] == p[1..] + t;
      PlainReads(p + t);
      DecodeCons(p + t, p[0], 1);
      DecodePlain(p[1..], t);
      assert Decode(t).Some? ==> [p[0]] + (p[1..] + Decode(t).value) == p + Decode(t).value;
    }
  }

  lemma PlainReads(t: string)
    requires t != "" && t[0] != '\\'
    ensures ReadOne(t) == Got(t[0], 1)
  {
  }

  lemma EscapeShape(c: char, follows: bool)
    requires 0 < c as int < 256 && c != '\\' && EscapeChar(c, follows) != "" && EscapeChar(c, follows)[0] == '\\'
    ensures var e := EscapeChar(c, follows); |e| > 1 && '\\' !in e[1..] && e[1] != c
  {
    NumericShape(c as nat, follows);
    hide Numeric;
  }

  lemma DecodeResidue(residue: string, rest: string)
    requires '\\' !in residue
    ensures Decode("\\\\" + (residue + rest)) ==
      match Decode(rest) case None => None case Some(d) => Some("\\" + residue + d)
  {
    var t := "\\\\" + (residue + rest);
    assert t[2..] == residue + rest;
    DecodeCons(t, '\\', 2);
    hide ReadOne, Decode;
    DecodePlain(residue, rest);
    assert Decode(rest).Some? ==> ['\\'] + (residue + Decode(rest).value) == "\\" + residue + Decode(rest).value;
  }

  lemma EscapedTwo(u: CString)
    requires |u| > 1 && u[0] == '\\'
    ensures Escaped(u) == ['\\'] + (EscapeChar(u[1], |u| > 2 && Hex.IsDigit(u[2])) + Escaped(u[2..]))
  {
    hide EscapeChar, Escaped;
    EscapedBackslash(u);
    EscapedCons(u[1..]);
    assert u[1..][1..] == u[2..];
  }

  /** A backslash in front of an escaped character: it pairs up with the escape's own backslash,
      and the rest of the escape is left over as plain text. */
  lemma Residue(u: CString) returns (residue: string)
    requires |u| > 1 && u[0] == '\\' && u[1] != '\\' && Escaped(u[1..])[0] == '\\'
    ensures residue != "" && '\\' !in residue && residue[0] != u[1]
    ensures Decode(Escaped(u)) ==
      match Decode(Escaped(u[2..])) case None => None case Some(d) => Some("\\" + residue + d)
  {
    hide EscapeChar, Escaped, Decode;
    var follows := |u| > 2 && Hex.IsDigit(u[2]);
    var e, rest := EscapeChar(u[1], follows), Escaped(u[2..]);
    EscapePrints(u[1], follows);
    residue := e[1..];
    EscapedTwo(u);
    EscapedCons(u[1..]);
    EscapeShape(u[1], follows);
    assert ['\\'] + (e + rest) == "\\\\" + (residue + rest);
    DecodeResidue(residue, rest);
  }

  /** A backslash that is read together with characters of the source itself: `n` of them give one
      character, and reading goes on at an escape's boundary. */
  lemma RawEscape(u: CString) returns (c: char, n: nat)
    requires u != "" && u[0] == '\\' && Decode(Escaped(u)).Some?
    requires |u| > 1 ==> u[1] == '\\' || Escaped(u[1..])[0] != '\\'
    ensures 2 <= n <= |u|
    ensures Decode(Escaped(u[n..])).Some? && Decode(Escaped(u)) == Some([c] + Decode(Escaped(u[n..])).value)
  {
    hide Escaped, EscapeChar, ReadOne, Decode;
    var rest := Escaped(u[1..]);
    EscapedBackslash(u);
    DecodeUnfold(Escaped(u));
    OneBackslashIsBad(Escaped(u));
    var r := ReadOne(Escaped(u));
    c, n := r.c, r.length;
    if rest[0] == '\\' {
      EscapedNothing();
      EscapedBackslash(u[1..]);
      assert u[1..][1..] == u[2..];
      assert Escaped(u)[2..] == Escaped(u[2..]);
    } else {
      SpansNoBackslash(Escaped(u));
      assert Escaped(u)[1..n] == rest[..n - 1];
      PlainStretch(u[1..], n - 1);
      assert u[1..][n - 1..] == u[n..];
      assert Escaped(u)[n..] == rest[n - 1..];
    }
  }

  lemma EscapedBackslash(u: CString)
    requires u != "" && u[0] == '\\'
    ensures Escaped(u) == "\\" + Escaped(u[1..])
  {
  }

  lemma OneBackslashIsBad(t: string)
    requires t != "" && t[0] == '\\'
    ensures |t| == 1 ==> ReadOne(t) == Bad
    ensures |t| > 1 && t[1] == '\\' ==> ReadOne(t) == Got('\\', 2)
  {
  }

  lemma EscapedNothing()
    ensures Escaped("") == ""
  {
  }

  /** If `u` has a backslash, or more text is wanted in front of it, decoding cannot give it: a raw
      backslash uses up more characters than it yields, and the shortfall `w` never closes. */
  lemma {:induction false} NoEcho(w: string, u: CString)
    requires w != "" || '\\' in u
    ensures Decode(Escaped(u)) != Some(w + u)
    decreases |u|
  {
    hide ReadOne, EscapeChar, Escaped, Decode;
    var all := w + u;
    if u == "" {
      NothingDecodes();
    } else if Decode(Escaped(u)) == Some(all) {
      if u[0] != '\\' {
        DecodeStep(u);
        Shortfall(w, u, 1);
        NoEcho(all[1..|w| + 1], u[1..]);
      } else if |u| > 1 && u[1] != '\\' && Doubled(u) {
        var residue := Residue(u);
        var n := 1 + |residue|;
        var d := Decode(Escaped(u[2..])).value;
        assert all == "\\" + residue + d;
        LongEnough(w, u, residue, d);
        assert d == all[n..];
        assert all[n..] == (w[n..] + u[..2]) + u[2..];
        NoEcho(w[n..] + u[..2], u[2..]);
      } else {
        var c, n := RawEscape(u);
        Shortfall(w, u, n);
        assert Decode(Escaped(u[n..])).value == all[1..];
        NoEcho(all[1..|w| + n], u[n..]);
      }
    }
  }

  lemma LongEnough(w: string, u: string, residue: string, d: string)
    requires |u| > 1 && u[0] == '\\' && '\\' !in residue && residue != "" && residue[0] != u[1]
    requires w + u == "\\" + residue + d
    ensures |w| > |residue|
  {
    var all := w + u;
    assert all[|w|] == '\\' && all[|w| + 1] == u[1];
    assert forall i | 0 <= i < |residue| :: all[1 + i] == residue[i] && residue[i] in residue;
  }

  /** The first character is followed by an escape. */
  predicate Doubled(u: CString)
    requires |u| > 1
  {
    Escaped(u[1..])[0] == '\\'
  }

  lemma NothingDecodes()
    ensures Decode(Escaped("")) == Some("")
  {
  }

  /** The text wanted once one character of `w + u` is matched and `n` of `u` are used up. */
  lemma Shortfall(w: string, u: string, n: nat)
    requires 1 <= n <= |u|
    ensures (w + u)[1..] == (w + u)[1..|w| + n] + u[n..]
  {
  }

  /** Decoding gives the string back exactly when it has no backslash. */
  lemma RoundTripExactly(s: CString)
    ensures Decode(Escaped(s)) == Some(s) <==> '\\' !in s
  {
    if '\\' in s {
      NoEcho("", s);
      assert "" + s == s;
    } else {
      RoundTrip(s);
    }
  }

  /** `LogStringPrintable`; a null string is None. */
  method LogStringPrintable(log: Log?, str: Option<CString>)
    requires log != null ==> log.Valid()
    modifies if log == null then {} else {log, log.buffer, log.printer}
    ensures log != null ==> log.Valid() && log.enabled == old(log.enabled) && log.Delivered()
    ensures log != null ==>
      log.V() == Typed(log.enabled, old(log.V()), if str.None? then "<<NULL>>" else Escaped(str.value))
  {
    if log == null {
      return;
    }
    if str.None? {
      log.S("<<NULL>>");
    } else {
      WriteEscaped(log, str.value);
    }
  }

  method WriteEscaped(log: Log, s: CString)
    requires log.Valid()
    modifies log, log.buffer, log.printer
    ensures log.Valid() && log.enabled == old(log.enabled) && log.Delivered()
    ensures log.V() == Typed(log.enabled, old(log.V()), Escaped(s))
  {
    hide Typed, Log.Stored, Log.From, EscapeChar, Escaped, Splits;
    ghost var v, all := log.V(), Escaped(s);
    ghost var done := "";
    SplitsEnds(all, done);
    assert s[0..] == s;
    TypedAppend(log.enabled, v, "", "");
    log.NothingSent();
    for i := 0 to |s|
      invariant log.Valid() && log.enabled == old(log.enabled) && log.Delivered()
      invariant Splits(all, done, Escaped(s[i..]))
      invariant log.V() == Typed(log.enabled, v, done)
    {
      ghost var e := EscapeChar(s[i], i + 1 < |s| && Hex.IsDigit(s[i + 1]));
      EscapedCons(s[i..]);
      TypedAppend(log.enabled, v, done, e);
      WriteChar(log, s[i], i + 1 < |s| && Hex.IsDigit(s[i + 1]));
      assert s[i..][1..] == s[i + 1..];
      SplitsNext(all, done, e, Escaped(s[i + 1..]));
      done := done + e;
    }
    EscapedNothing();
    assert s[|s|..] == "";
    SplitsEnds(all, done);
  }

  lemma EscapedCons(s: CString)
    requires s != ""
    ensures Escaped(s) == EscapeChar(s[0], |s| > 1 && Hex.IsDigit(s[1])) + Escaped(s[1..])
  {
  }

  /** The body of the loop. */
  method WriteChar(log: Log, x: char, hexDigitFollows: bool)
    requires log.Valid() && 0 < x as int < 256
    modifies log, log.buffer, log.printer
    ensures log.Valid() && log.enabled == old(log.enabled) && log.Delivered()
    ensures log.V() == Typed(log.enabled, old(log.V()), EscapeChar(x, hexDigitFollows))
  {
    hide Type, TypeChar, Numeric, Log.Stored, Log.From;
    if x as int < 32 {
      match x {
        case '\n' => log.S("\\n");
        case '\t' => log.S("\\t");
        case '\r' => log.S("\\r");
        case _ =>
          if x == 8 as char {
            log.S("\\b");
          } else {
            log.S(Numeric(x as nat, hexDigitFollows));
          }
      }
    } else if x as int <= 126 {
      TypeOne(log.V(), x);
      log.C(x);
    } else {
      log.S(Numeric(x as nat, hexDigitFollows));
    }
  }
}
