/** src/CommandLineParser.cpp: `PrintWrappedLines` and `MoveToColumn`, on top of the log. */
module Wrap {
  import opened Log

  const BRIEF_COLUMN_WIDTH: nat := 20

  // ----- words -----

  /** Words are separated by spaces; in what is written, by newlines as well. */
  predicate Separates(c: char, newlines: bool) {
    c == ' ' || (newlines && c == '\n')
  }

  predicate IsWord(w: string, newlines: bool) {
    w != "" && forall i | 0 <= i < |w| :: !Separates(w[i], newlines)
  }

  function WordLength(s: string, newlines: bool): (n: nat)
    ensures n <= |s| && forall i | 0 <= i < n :: !Separates(s[i], newlines)
    ensures n < |s| ==> Separates(s[n], newlines)
  {
    if s == "" || Separates(s[0], newlines) then 0 else 1 + WordLength(s[1..], newlines)
  }

  function Words(s: string, newlines: bool): seq<string>
    decreases |s|
  {
    if s == "" then []
    else if Separates(s[0], newlines) then Words(s[1..], newlines)
    else
      var n := WordLength(s, newlines);
      [s[..n]] + Words(s[n..], newlines)
  }

  lemma WordLengthIs(s: string, n: nat, newlines: bool)
    requires n <= |s| && forall i | 0 <= i < n :: !Separates(s[i], newlines)
    requires n < |s| ==> Separates(s[n], newlines)
    ensures WordLength(s, newlines) == n
  {
    var m := WordLength(s, newlines);
    assert m < |s| ==> Separates(s[m], newlines);
  }

  lemma WordsOf(s: string, n: nat, newlines: bool)
    requires 0 < n <= |s| && forall i | 0 <= i < n :: !Separates(s[i], newlines)
    requires n < |s| ==> Separates(s[n], newlines)
    ensures Words(s, newlines) == [s[..n]] + Words(s[n..], newlines)
  {
    WordLengthIs(s, n, newlines);
  }

  lemma WordsSkip(s: string, newlines: bool)
    requires s != "" && Separates(s[0], newlines)
    ensures Words(s, newlines) == Words(s[1..], newlines)
  {
  }

  /** No word goes on from `s` to `t`. */
  predicate Apart(s: string, t: string, newlines: bool) {
    s == "" || t == "" || Separates(s[|s| - 1], newlines) || Separates(t[0], newlines)
  }

  lemma ApartOn(s: string, t: string, n: nat, newlines: bool)
    requires n <= |s| && Apart(s, t, newlines)
    ensures Apart(s[n..], t, newlines) && (s + t)[n..] == s[n..] + t
  {
    hide Separates;
    assert n < |s| ==> s[n..][|s| - n - 1] == s[|s| - 1];
  }

  lemma FrontWord(s: string, t: string, newlines: bool)
    requires s != "" && !Separates(s[0], newlines) && Apart(s, t, newlines)
    ensures var n := WordLength(s, newlines);
      && 0 < n && Words(s, newlines) == [s[..n]] + Words(s[n..], newlines)
      && Words(s + t, newlines) == [s[..n]] + Words(s[n..] + t, newlines)
  {
    var n := WordLength(s, newlines);
    assert (s + t)[..n] == s[..n] && (s + t)[n..] == s[n..] + t;
    hide Words, WordLength;
    assert n < |s| ==> (s + t)[n] == s[n];
    assert n == |s| && t != "" ==> (s + t)[n] == t[0];
    WordsOf(s + t, n, newlines);
    WordsOf(s, n, newlines);
  }

  lemma Regroup(a: seq<string>, b: seq<string>, c: seq<string>)
    ensures a + (b + c) == (a + b) + c
  {
  }

  /** A text cut beside a separator has the words of its two parts. */
  lemma {:induction false} WordsJoin(s: string, t: string, newlines: bool)
    requires Apart(s, t, newlines)
    ensures Words(s + t, newlines) == Words(s, newlines) + Words(t, newlines)
    decreases |s|
  {
    if s == "" {
      assert s + t == t;
    } else {
      hide Words, Separates, WordLength, Apart, IsWord;
      if Separates(s[0], newlines) {
        ApartOn(s, t, 1, newlines);
        WordsSkip(s, newlines);
        WordsSkip(s + t, newlines);
        WordsJoin(s[1..], t, newlines);
      } else {
        var n := WordLength(s, newlines);
        FrontWord(s, t, newlines);
        ApartOn(s, t, n, newlines);
        WordsJoin(s[n..], t, newlines);
        Regroup([s[..n]], Words(s[n..], newlines), Words(t, newlines));
      }
    }
  }

  lemma OneWord(w: string, newlines: bool)
    requires IsWord(w, newlines)
    ensures Words(w, newlines) == [w]
  {
    WordLengthIs(w, |w|, newlines);
    assert w[..|w|] == w && w[|w|..] == "";
  }

  lemma {:induction false} WordsAreWords(s: string)
    requires '\n' !in s
    ensures forall i | 0 <= i < |Words(s, false)| :: IsWord(Words(s, false)[i], true)
    decreases |s|
  {
    if s != "" {
      var n := WordLength(s, false);
      if n == 0 {
        WordsAreWords(s[1..]);
      } else {
        WordsAreWords(s[n..]);
        assert IsWord(s[..n], true);
      }
    }
  }

  // ----- what is written -----

  /** A word with the newline or the space before it. */
  function Piece(v: View, first: bool, wrapColumn: int, w: string): string {
    var breaks := v.column + |w| >= wrapColumn;
    (if breaks then "\n" else "") + (if first || breaks || v.bol then "" else " ") + w
  }

  function Wrapped(v: View, wrapColumn: int, words: seq<string>): string {
    if words == [] then ""
    else
      var n := |words| - 1;
      var before := Wrapped(v, wrapColumn, words[..n]);
      before + Piece(Type(v, before), n == 0, wrapColumn, words[n])
  }

  // ----- its properties -----

  predicate Plain(w: string) {
    w != "" && forall i | 0 <= i < |w| :: w[i] as int > 32
  }

  /** Where the log stands after plain text, or plain words with spaces. */
  lemma {:induction false} TypePlain(v: View, w: string)
    requires w != "" && forall i | 0 <= i < |w| :: w[i] as int >= 32
    ensures var u := Type(v, w);
      !u.bol && u.indent == v.indent && u.column == (if v.bol then |Spaces(v.indent)| else v.column) + |w|
  {
    hide Tag;
    var n := |w| - 1;
    if n == 0 {
      assert w[..0] == "";
    } else {
      TypePlain(v, w[..n]);
    }
  }

  lemma PieceColumn(v: View, first: bool, wrapColumn: int, w: string)
    requires Plain(w) && (v.bol ==> v.column == 0)
    ensures var u := Type(v, Piece(v, first, wrapColumn, w));
      !u.bol && u.indent == v.indent &&
      (u.column <= wrapColumn || u.column <= |Spaces(v.indent)| + |w|)
  {
    hide Tag;
    var breaks := v.column + |w| >= wrapColumn;
    if breaks {
      TypeAppend(v, "\n", w);
      TypeOne(v, '\n');
      assert Piece(v, first, wrapColumn, w) == "\n" + w;
      TypePlain(Type(v, "\n"), w);
    } else if first || v.bol {
      assert Piece(v, first, wrapColumn, w) == w;
      TypePlain(v, w);
    } else {
      assert Piece(v, first, wrapColumn, w) == " " + w;
      TypeAppend(v, " ", w);
      TypeOne(v, ' ');
      TypePlain(Type(v, " "), w);
    }
  }

  /** After any number of words the log is inside a line, no further right than the wrap column,
      or than the last word when that fills a line by itself. */
  lemma {:induction false} WrappedColumn(v: View, wrapColumn: int, words: seq<string>)
    requires v.bol ==> v.column == 0
    requires forall i | 0 <= i < |words| :: Plain(words[i])
    ensures var u := Type(v, Wrapped(v, wrapColumn, words));
      u.indent == v.indent &&
      (words != [] ==>
         !u.bol && (u.column <= wrapColumn || u.column <= |Spaces(v.indent)| + |words[|words| - 1]|))
  {
    hide Piece, TypeChar;
    if words != [] {
      var n := |words| - 1;
      var before := Wrapped(v, wrapColumn, words[..n]);
      WrappedColumn(v, wrapColumn, words[..n]);
      var u := Type(v, before);
      assert n == 0 ==> u == v;
      PieceColumn(u, n == 0, wrapColumn, words[n]);
      TypeAppend(v, before, Piece(u, n == 0, wrapColumn, words[n]));
    }
  }

  // ----- where lines are broken -----

  /** Just before each word there is a newline if and only if the column and the word's length reach the
      wrap column, or else one space, unless the word is the first or stands at the beginning of a line. */
  lemma {:induction false} BreaksExactly(v: View, wrapColumn: int, words: seq<string>, k: nat)
    requires k < |words|
    ensures var before, w := Wrapped(v, wrapColumn, words[..k]), words[k];
      var u := Type(v, before);
      var separator := if u.column + |w| >= wrapColumn then "\n" else if k > 0 && !u.bol then " " else "";
      before + separator + w <= Wrapped(v, wrapColumn, words)
    decreases |words|
  {
    hide Type;
    var n := |words| - 1;
    assert words == words[..n] + [words[n]];
    WrappedNext(v, wrapColumn, words[..n], words[n]);
    if k < n {
      BreaksExactly(v, wrapColumn, words[..n], k);
      assert words[..n][..k] == words[..k];
    } else {
      var before := Wrapped(v, wrapColumn, words[..n]);
      PieceIs(Type(v, before), n == 0, wrapColumn, words[n], before);
    }
  }

  lemma PieceIs(u: View, first: bool, wrapColumn: int, w: string, before: string)
    ensures before + Piece(u, first, wrapColumn, w) ==
      before + (if u.column + |w| >= wrapColumn then "\n" else if !first && !u.bol then " " else "") + w
  {
  }

  /** Words with single spaces between them. */
  function Spaced(words: seq<string>): string {
    if words == [] then ""
    else if |words| == 1 then words[0]
    else Spaced(words[..|words| - 1]) + " " + words[|words| - 1]
  }

  /** All the words fit on the line where the log stands. */
  predicate Fits(v: View, wrapColumn: int, words: seq<string>) {
    var start := if v.bol then |Spaces(v.indent)| else v.column;
    forall k | 0 <= k < |words| ::
      (if k == 0 then v.column else start + |Spaced(words[..k])|) + |words[k]| < wrapColumn
  }

  lemma SpacedNext(words: seq<string>, w: string)
    ensures Spaced(words + [w]) == Spaced(words) + (if words == [] then "" else " ") + w
  {
    assert (words + [w])[..|words|] == words;
  }

  lemma {:induction false} SpacedPrints(words: seq<string>)
    requires forall i | 0 <= i < |words| :: Plain(words[i])
    ensures forall i | 0 <= i < |Spaced(words)| :: Spaced(words)[i] as int >= 32
    ensures words != [] ==> Spaced(words) != ""
  {
    if |words| > 1 {
      SpacedPrints(words[..|words| - 1]);
    }
    assert words != [] ==> Plain(words[|words| - 1]);
  }

  lemma FitsNext(v: View, wrapColumn: int, words: seq<string>, w: string)
    ensures var start := if v.bol then |Spaces(v.indent)| else v.column;
      Fits(v, wrapColumn, words + [w]) <==>
      Fits(v, wrapColumn, words) && (if words == [] then v.column else start + |Spaced(words)|) + |w| < wrapColumn
  {
    hide Spaced, Spaces;
    var all := words + [w];
    assert forall k | 0 <= k <= |words| :: all[..k] == words[..k];
    assert all[|words|] == w && words[..|words|] == words;
  }

  /** Where the log stands after these words, if they are on one line. */
  lemma SpacedColumn(v: View, words: seq<string>)
    requires words != [] && forall i | 0 <= i < |words| :: Plain(words[i])
    ensures var u := Type(v, Spaced(words));
      !u.bol && u.column == (if v.bol then |Spaces(v.indent)| else v.column) + |Spaced(words)|
  {
    SpacedPrints(words);
    TypePlain(v, Spaced(words));
  }

  /** A line is filled: the words are typed with single spaces and no line break if and only if all of
      them fit on the line. */
  lemma {:induction false} OneLine(v: View, wrapColumn: int, words: seq<string>)
    requires (v.bol ==> v.column == 0) && forall i | 0 <= i < |words| :: Plain(words[i])
    ensures Fits(v, wrapColumn, words) ==> Wrapped(v, wrapColumn, words) == Spaced(words)
    ensures Fits(v, wrapColumn, words) <==> '\n' !in Wrapped(v, wrapColumn, words)
  {
    hide Wrapped, Type, Fits, Spaced, Plain, Piece, Spaces;
    if words == [] {
      NoneFit(v, wrapColumn);
    } else {
      var n := |words| - 1;
      var some, w := words[..n], words[n];
      assert words == some + [w];
      OneLine(v, wrapColumn, some);
      WrappedNext(v, wrapColumn, some, w);
      FitsNext(v, wrapColumn, some, w);
      SpacedNext(some, w);
      var before := Wrapped(v, wrapColumn, some);
      PieceIs(Type(v, before), n == 0, wrapColumn, w, before);
      NoBreakInWord(w);
      if Fits(v, wrapColumn, some) {
        if n == 0 {
          NoneFit(v, wrapColumn);
        } else {
          SpacedColumn(v, some);
        }
      }
    }
  }

  lemma NoBreakInWord(w: string)
    requires Plain(w)
    ensures '\n' !in w
  {
  }

  lemma NoneFit(v: View, wrapColumn: int)
    ensures Fits(v, wrapColumn, []) && Wrapped(v, wrapColumn, []) == "" == Spaced([]) && Type(v, "") == v
  {
  }

  // ----- the words written -----

  /** The words in each of these, newlines separating too. */
  function AllWords(words: seq<string>): seq<string> {
    if words == [] then [] else AllWords(words[..|words| - 1]) + Words(words[|words| - 1], true)
  }

  lemma SeparatorAddsWord(before: string, separator: char, w: string)
    requires Separates(separator, true)
    ensures Words(before + ([separator] + w), true) == Words(before, true) + Words(w, true)
  {
    hide Words;
    WordsJoin(before, [separator] + w, true);
    WordsSkip([separator] + w, true);
    assert ([separator] + w)[1..] == w;
  }

  lemma PieceAddsWords(before: string, u: View, first: bool, wrapColumn: int, w: string)
    requires first || u.bol ==> before == "" || before[|before| - 1] == '\n'
    ensures Words(before + Piece(u, first, wrapColumn, w), true) == Words(before, true) + Words(w, true)
  {
    hide Words;
    var piece := Piece(u, first, wrapColumn, w);
    if u.column + |w| >= wrapColumn {
      assert piece == ['\n'] + w;
      SeparatorAddsWord(before, '\n', w);
    } else if first || u.bol {
      assert piece == w;
      WordsJoin(before, w, true);
    } else {
      assert piece == [' '] + w;
      SeparatorAddsWord(before, ' ', w);
    }
  }

  lemma BolAfter(v: View, s: string)
    requires s != ""
    ensures Type(v, s).bol <==> s[|s| - 1] == '\n'
  {
  }

  /** The words written are the words given, in order, none joined and none split but at its own
      newlines. */
  lemma {:induction false} WrappedKeepsWords(v: View, wrapColumn: int, words: seq<string>)
    ensures Words(Wrapped(v, wrapColumn, words), true) == AllWords(words)
    ensures (forall i | 0 <= i < |words| :: IsWord(words[i], true)) ==> AllWords(words) == words
  {
    hide TypeChar, Type, Piece, IsWord, Words, Wrapped;
    NoWords(v, wrapColumn);
    if words != [] {
      var n := |words| - 1;
      var some, w := words[..n], words[n];
      var before := Wrapped(v, wrapColumn, some);
      WrappedKeepsWords(v, wrapColumn, some);
      if before != "" {
        BolAfter(v, before);
      }
      PieceAddsWords(before, Type(v, before), n == 0, wrapColumn, w);
      WrappedNext(v, wrapColumn, some, w);
      assert words == some + [w];
      if IsWord(w, true) {
        OneWord(w, true);
      }
    }
  }

  lemma {:induction false} AllWordsCons(w: string, words: seq<string>)
    ensures AllWords([w] + words) == Words(w, true) + AllWords(words)
  {
    hide Words;
    var all := [w] + words;
    if words == [] {
      assert all[..0] == [];
    } else {
      assert all[..|words|] == [w] + words[..|words| - 1];
      AllWordsCons(w, words[..|words| - 1]);
    }
  }

  /** Cutting at spaces first and then at newlines is cutting at both. */
  lemma {:induction false} WordsOfWords(str: string)
    ensures AllWords(Words(str, false)) == Words(str, true)
    decreases |str|
  {
    if str != "" {
      if str[0] == ' ' {
        WordsOfWords(str[1..]);
      } else {
        var n := WordLength(str, false);
        WordsOf(str, n, false);
        WordsOfWords(str[n..]);
        hide Words, WordLength;
        AllWordsCons(str[..n], Words(str[n..], false));
        WordsJoin(str[..n], str[n..], true);
        assert str[..n] + str[n..] == str;
      }
    }
  }

  /** Wrapping any text keeps its words. */
  lemma WrapKeepsWords(v: View, wrapColumn: int, str: string)
    ensures Words(Wrapped(v, wrapColumn, Words(str, false)), true) == Words(str, true)
    ensures '\n' !in str ==> Words(str, true) == Words(str, false)
  {
    WrappedKeepsWords(v, wrapColumn, Words(str, false));
    WordsOfWords(str);
    if '\n' !in str {
      WordsAreWords(str);
    }
  }

  // ----- the code -----

  lemma NoWords(v: View, wrapColumn: int)
    ensures Wrapped(v, wrapColumn, []) == "" && Words("", false) == [] == Words("", true)
  {
  }

  lemma WrappedNext(v: View, wrapColumn: int, words: seq<string>, w: string)
    ensures var before := Wrapped(v, wrapColumn, words);
      Wrapped(v, wrapColumn, words + [w]) == before + Piece(Type(v, before), words == [], wrapColumn, w)
  {
    assert (words + [w])[..|words|] == words;
  }

  lemma NextWord(str: string, a: nat, b: nat)
    requires a < b <= |str| && IsWord(str[a..b], false) && (b < |str| ==> str[b] == ' ')
    ensures Words(str[a..], false) == [str[a..b]] + Words(str[b..], false)
  {
    var s := str[a..];
    assert forall i | 0 <= i < b - a :: s[i] == str[a..b][i];
    WordLengthIs(s, b - a, false);
    assert s[..b - a] == str[a..b] && s[b - a..] == str[b..];
  }

  method SkipSpaces(str: string, from: nat) returns (a: nat)
    requires from <= |str|
    ensures from <= a <= |str| && (a < |str| ==> str[a] != ' ')
    ensures Words(str[a..], false) == Words(str[from..], false)
  {
    a := from;
    while a < |str| && str[a] == ' '
      invariant from <= a <= |str|
      invariant Words(str[a..], false) == Words(str[from..], false)
    {
      assert str[a..][1..] == str[a + 1..];
      a := a + 1;
    }
  }

  method EndOfWord(str: string, a: nat) returns (b: nat)
    requires a < |str| && str[a] != ' '
    ensures a < b <= |str| && IsWord(str[a..b], false) && (b < |str| ==> str[b] == ' ')
  {
    b := a;
    while b < |str| && str[b] != ' '
      invariant a <= b <= |str|
      invariant forall i | a <= i < b :: str[i] != ' '
    {
      b := b + 1;
    }
  }

  /** A word goes out: the newline if it is due, the space if one is, the word. */
  method WritePiece(log: Log, w: string, first: bool, wrapColumn: int)
    requires log.Valid()
    modifies log, log.buffer, log.printer
    ensures log.Valid() && log.enabled == old(log.enabled) && log.Delivered()
    ensures log.V() == Typed(log.enabled, old(log.V()), Piece(old(log.V()), first, wrapColumn, w))
  {
    hide Type, Log.Stored, Log.From;
    ghost var v, on := log.V(), log.enabled;
    ghost var done := "";
    TypedAppend(on, v, "", "");
    log.NothingSent();
    if log.column + |w| >= wrapColumn {
      log.S("\n");
      done := "\n";
      NewlineBegins(v);
    }
    if !first {
      if !log.bol {
        TypedAppend(on, v, done, " ");
        log.S(" ");
        done := done + " ";
      }
    }
    TypedAppend(on, v, done, w);
    log.S(w);
    assert on ==> done + w == Piece(v, first, wrapColumn, w);
  }

  lemma NewlineBegins(v: View)
    ensures Type(v, "\n").bol
  {
    TypeOne(v, '\n');
  }

  method PrintWrappedLines(log: Log, str: string, terminalWidth: int)
    requires log.Valid()
    modifies log, log.buffer, log.printer
    ensures log.Valid() && log.enabled == old(log.enabled) && log.Delivered()
    ensures var v := old(log.V());
      var wrapColumn := if v.column > terminalWidth - 1 then 80 else terminalWidth - 1;
      log.V() == Typed(log.enabled, v, Wrapped(v, wrapColumn, Words(str, false)))
  {
    hide Type, Log.Stored, Log.From, Words, Wrapped, Piece;
    var wrapColumn := terminalWidth - 1;
    if log.column > wrapColumn {
      wrapColumn := 80;
    }
    var first := true;
    var a := 0;
    ghost var v := log.V();
    ghost var words: seq<string> := [];
    NoWords(v, wrapColumn);
    TypedAppend(log.enabled, v, "", "");
    log.NothingSent();
    assert str[0..] == str;
    while a < |str|
      invariant 0 <= a <= |str| && first == (words == [])
      invariant log.Valid() && log.enabled == old(log.enabled) && log.Delivered()
      invariant words + Words(str[a..], false) == Words(str, false)
      invariant log.V() == Typed(log.enabled, v, Wrapped(v, wrapColumn, words))
    {
      var a' := SkipSpaces(str, a);
      if a' == |str| {
        a := a';
        continue;
      }
      var b := EndOfWord(str, a');
      ghost var w := str[a'..b];
      NextWord(str, a', b);
      assert (words + [w]) + Words(str[b..], false) == words + ([w] + Words(str[b..], false));
      ghost var before := Wrapped(v, wrapColumn, words);
      WrappedNext(v, wrapColumn, words, w);
      TypedAppend(log.enabled, v, before, Piece(log.V(), first, wrapColumn, w));
      WritePiece(log, str[a'..b], first, wrapColumn);
      first := false;
      words := words + [w];
      a := b;
    }
    NoWords(v, wrapColumn);
    assert str[a..] == "";
    assert words + [] == words;
  }

  // ----- moving to a column -----

  /** Before the loop of `MoveToColumn`. */
  function Begun(enabled: bool, v: View, col: int): View {
    if v.column >= col then Typed(enabled, v, "\n") else v
  }

  /** After `n` turns of its loop, or fewer if it ended before. */
  function Turned(enabled: bool, v: View, col: int, n: nat): View {
    if n == 0 then v
    else
      var u := Turned(enabled, v, col, n - 1);
      if u.column < col then Typed(enabled, u, " ") else u
  }

  /** `MoveToColumn`, given up after so many turns of its loop. */
  method MoveToColumn(log: Log, col: int, turns: nat) returns (ended: bool)
    requires log.Valid()
    modifies log, log.buffer, log.printer
    ensures log.Valid() && log.enabled == old(log.enabled) && log.Delivered()
    ensures log.V() == Turned(log.enabled, Begun(log.enabled, old(log.V()), col), col, turns)
    ensures ended == (log.column >= col)
  {
    hide Typed, Log.Stored, Log.From, Turned;
    log.NothingSent();
    if log.column >= col {
      log.S("\n");
    }
    ghost var v := log.V();
    var n := 0;
    TurnedFirst(log.enabled, v, col);
    while log.column < col && n < turns
      invariant log.Valid() && log.enabled == old(log.enabled) && log.Delivered()
      invariant n <= turns && log.V() == Turned(log.enabled, v, col, n)
      decreases turns - n
    {
      TurnedNext(log.enabled, v, col, n);
      log.S(" ");
      n := n + 1;
    }
    ended := log.column >= col;
    TurnedStays(log.enabled, v, col, n, turns);
  }

  lemma TurnedFirst(enabled: bool, v: View, col: int)
    ensures Turned(enabled, v, col, 0) == v
  {
  }

  lemma TurnedNext(enabled: bool, v: View, col: int, n: nat)
    ensures var u := Turned(enabled, v, col, n);
      Turned(enabled, v, col, n + 1) == if u.column < col then Typed(enabled, u, " ") else u
  {
  }

  lemma {:induction false} TurnedStays(enabled: bool, v: View, col: int, n: nat, m: nat)
    requires n <= m && (n < m ==> Turned(enabled, v, col, n).column >= col)
    ensures Turned(enabled, v, col, m) == Turned(enabled, v, col, n)
    decreases m
  {
    hide Typed;
    if n < m {
      TurnedStays(enabled, v, col, n, m - 1);
    }
  }

  lemma SpaceMoves(v: View)
    requires v.bol ==> v.column == 0
    ensures var u := Type(v, " ");
      !u.bol && u.indent == v.indent && u.column == (if v.bol then |Spaces(v.indent)| else v.column) + 1
  {
    TypeOne(v, ' ');
  }

  /** A turn takes an enabled log at least one column on, and no further than the column, unless the
      indent of a new line is past it. */
  lemma {:induction false} TurnsMove(v: View, col: int, n: nat)
    requires 0 <= v.column <= (if col > 0 then col else 0) && (v.bol ==> v.column == 0)
    ensures var u := Turned(true, v, col, n);
      && u.indent == v.indent && (u.bol ==> u.column == 0)
      && (u.column >= col || u.column >= n)
      && (0 <= u.column <= (if col > 0 then col else 0) || (u.column == u.indent + 1 && col <= u.indent))
  {
    if n > 0 {
      TurnsMove(v, col, n - 1);
      hide Type, TypeChar, Spaces;
      SpaceMoves(Turned(true, v, col, n - 1));
    }
  }

  lemma {:induction false} DisabledStays(v: View, col: int, n: nat)
    ensures Turned(false, v, col, n) == v
  {
    if n > 0 {
      DisabledStays(v, col, n - 1);
    }
  }

  /** Whether the loop has ended after some number of turns. */
  ghost predicate Ends(enabled: bool, v: View, col: int) {
    exists n: nat :: Turned(enabled, Begun(enabled, v, col), col, n).column >= col
  }

  lemma NewlineColumn(v: View)
    ensures var u := Type(v, "\n"); u.bol && u.column == 0 && u.indent == v.indent
  {
    TypeOne(v, '\n');
  }

  /** `MoveToColumn` returns if and only if the log is enabled or is past the column already. */
  lemma MoveEnds(enabled: bool, v: View, col: int)
    requires 0 <= v.column && (v.bol ==> v.column == 0)
    ensures Ends(enabled, v, col) <==> enabled || v.column >= col
  {
    hide Type, Turned;
    var b := Begun(enabled, v, col);
    if enabled {
      NewlineColumn(v);
      var n: nat := if col > 0 then col else 0;
      TurnsMove(b, col, n);
      assert Turned(enabled, b, col, n).column >= col;
    } else {
      TurnedFirst(enabled, b, col);
      forall n: nat
        ensures Turned(enabled, b, col, n) == v
      {
        DisabledStays(b, col, n);
      }
    }
  }

  /** What it types: perhaps a newline, then only spaces. When it returns, the log is at the column,
      or one past the indent of its line if that reaches the column. */
  lemma {:induction false} MoveTypes(v: View, col: int, n: nat) returns (m: nat)
    requires 0 <= v.column && (v.bol ==> v.column == 0)
    ensures var u := Turned(true, Begun(true, v, col), col, n);
      && u == Type(v, (if v.column >= col then "\n" else "") + Spaces(m))
      && (u.column >= col ==> u.column == (if col > 0 then col else 0) || (u.column == v.indent + 1 && col <= v.indent))
  {
    hide Type;
    var b, start := Begun(true, v, col), if v.column >= col then "\n" else "";
    NewlineColumn(v);
    TypeNothing(v);
    TurnsMove(b, col, n);
    if n == 0 {
      m := 0;
      assert start + Spaces(0) == start;
    } else {
      m := MoveTypes(v, col, n - 1);
      var u := Turned(true, b, col, n - 1);
      TypeAppend(v, start + Spaces(m), " ");
      if u.column < col {
        assert start + Spaces(m) + " " == start + Spaces(m + 1);
        m := m + 1;
      }
    }
  }

  /** However long it is given, the help text never gets to its second column on a disabled log. */
  method HelpOnDisabledLog(turns: nat) returns (ended: bool)
    ensures !ended
  {
    var log := new Log("", null, false);
    DisabledStays(log.V(), BRIEF_COLUMN_WIDTH, turns);
    ended := MoveToColumn(log, BRIEF_COLUMN_WIDTH, turns);
  }
}
