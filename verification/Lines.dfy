/** src/strings.cpp: `ForEachLine`. */
module Lines {

  predicate Ends(c: char) {
    c == '\r' || c == '\n'
  }

  predicate IsLine(s: string) {
    forall i | 0 <= i < |s| :: !Ends(s[i])
  }

  /** A terminator: one of the two characters, or both in either order. */
  predicate IsTerminator(t: string) {
    (|t| == 1 && Ends(t[0])) || (|t| == 2 && Ends(t[0]) && Ends(t[1]) && t[0] != t[1])
  }

  /** A line and what ends it; the last may have no terminator. */
  datatype Piece = Piece(line: string, end: string)

  function LineLength(s: string): (n: nat)
    ensures n <= |s| && (forall i | 0 <= i < n :: !Ends(s[i])) && (n < |s| ==> Ends(s[n]))
  {
    if s == "" || Ends(s[0]) then 0 else 1 + LineLength(s[1..])
  }

  /** The terminator at index `n`: two characters if they differ. */
  function TerminatorLength(s: string, n: nat): (k: nat)
    requires n < |s| && Ends(s[n])
    ensures k == 1 || (k == 2 && n + 1 < |s| && Ends(s[n + 1]) && s[n + 1] != s[n])
  {
    if n + 1 < |s| && Ends(s[n + 1]) && s[n + 1] != s[n] then 2 else 1
  }

  /** Where the first piece ends. */
  function FrontLength(s: string): (e: nat)
    requires s != ""
    ensures 0 < e <= |s|
  {
    var n := LineLength(s);
    if n == |s| then n else n + TerminatorLength(s, n)
  }

  function Front(s: string): Piece
    requires s != ""
  {
    Piece(s[..LineLength(s)], s[LineLength(s)..FrontLength(s)])
  }

  /** The greedy split. */
  function Pieces(s: string): seq<Piece>
    decreases |s|
  {
    if s == "" then [] else [Front(s)] + Pieces(s[FrontLength(s)..])
  }

  function LinesOf(ps: seq<Piece>): seq<string> {
    seq(|ps|, i requires 0 <= i < |ps| => ps[i].line)
  }

  function Joined(ps: seq<Piece>): string {
    if ps == [] then "" else ps[0].line + ps[0].end + Joined(ps[1..])
  }

  // ----- the code -----

  lemma LineLengthIs(s: string, n: nat)
    requires n <= |s| && (forall i | 0 <= i < n :: !Ends(s[i])) && (n < |s| ==> Ends(s[n]))
    ensures LineLength(s) == n
  {
    var m := LineLength(s);
  }

  lemma FirstPiece(s: string)
    requires s != ""
    ensures Pieces(s) == [Front(s)] + Pieces(s[FrontLength(s)..])
  {
    hide Front, FrontLength;
  }

  lemma LineEnds(s: string, n: nat)
    requires n <= |s| && IsLine(s[..n]) && (n < |s| ==> Ends(s[n]))
    ensures LineLength(s) == n
  {
    var front := s[..n];
    assert forall i | 0 <= i < n :: front[i] == s[i];
    LineLengthIs(s, n);
  }

  lemma FrontIs(s: string, n: nat)
    requires n < |s| && LineLength(s) == n
    ensures Ends(s[n]) && FrontLength(s) == n + TerminatorLength(s, n)
    ensures Front(s) == Piece(s[..n], s[n..FrontLength(s)])
  {
    hide LineLength, TerminatorLength;
  }

  lemma NextPiece(s: string, n: nat, e: nat)
    requires n < e <= |s| && IsLine(s[..n]) && Ends(s[n]) && e == n + TerminatorLength(s, n)
    ensures Pieces(s) == [Piece(s[..n], s[n..e])] + Pieces(s[e..])
    ensures LinesOf(Pieces(s)) == [s[..n]] + LinesOf(Pieces(s[e..]))
  {
    hide TerminatorLength, LineLength, LinesOf, Pieces, Ends, IsLine, Front, FrontLength;
    LineEnds(s, n);
    FrontIs(s, n);
    FirstPiece(s);
    LinesOfCons(Front(s), Pieces(s[e..]));
  }

  lemma LinesOfCons(p: Piece, rest: seq<Piece>)
    ensures LinesOf([p] + rest) == [p.line] + LinesOf(rest)
  {
  }

  lemma LastPiece(s: string)
    requires s != "" && IsLine(s)
    ensures Pieces(s) == [Piece(s, "")] && LinesOf(Pieces(s)) == [s]
  {
    assert s[..|s|] == s;
    LineEnds(s, |s|);
    FirstPiece(s);
    NoPiece();
    hide LineLength, Pieces;
    assert s[..|s|] == s && s[|s|..] == "";
    assert [Front(s)] + [] == [Front(s)];
  }

  lemma NoPiece()
    ensures Pieces("") == [] && LinesOf([]) == []
  {
  }

  /** `fun` is given the lines delivered so far, the new one last, so it may keep a state; its answer
      is that of the source's callback. Every line of the greedy split is delivered, up to the first
      on which `fun` says no. */
  method ForEachLine(str: string, fun: seq<string> -> bool) returns (ok: bool, delivered: seq<string>)
    ensures var all := LinesOf(Pieces(str));
      && delivered <= all
      && (ok ==> delivered == all && forall k | 0 < k <= |all| :: fun(all[..k]))
      && (!ok ==> delivered != [] && !fun(delivered) && forall k | 0 < k < |delivered| :: fun(all[..k]))
  {
    hide Pieces, LinesOf, TerminatorLength, IsLine, Splits;
    delivered := [];
    var a, b, n := 0, 0, |str|;
    ghost var all := LinesOf(Pieces(str));
    SplitsFirst(str);
    while b != n
      invariant 0 <= a <= b <= n && IsLine(str[a..b])
      invariant Splits(all, delivered, LinesOf(Pieces(str[a..])))
      invariant delivered <= all && forall k | 0 < k <= |delivered| :: fun(all[..k])
      decreases n - b
    {
      var c := str[b];
      if c == '\r' || c == '\n' {
        ghost var e := TerminatorEnd(str, a, b);
        SplitsNext(all, delivered, str[a..b], LinesOf(Pieces(str[e..])));
        delivered := delivered + [str[a..b]];
        if !fun(delivered) {
          return false, delivered;
        }
        b := b + 1;
        if b < n {
          var c2 := str[b];
          if (c2 == '\r' || c2 == '\n') && c2 != c {
            b := b + 1;
          }
        }
        a := b;
        NoLineYet(str, a);
      } else {
        LineGrows(str, a, b);
        b := b + 1;
      }
    }
    assert str[a..] == str[a..b];
    if b != a {
      LastPiece(str[a..b]);
      SplitsNext(all, delivered, str[a..b], []);
      delivered := delivered + [str[a..b]];
      if !fun(delivered) {
        return false, delivered;
      }
    } else {
      NoPiece();
    }
    SplitsLast(all, delivered);
    ok := true;
  }

  /** What is delivered and what is to come make up all the lines. */
  ghost predicate Splits(all: seq<string>, delivered: seq<string>, rest: seq<string>) {
    delivered + rest == all
  }

  lemma SplitsFirst(str: string)
    ensures Splits(LinesOf(Pieces(str)), [], LinesOf(Pieces(str[0..]))) && IsLine(str[0..0])
  {
    hide LinesOf, Pieces;
    assert str[0..] == str;
  }

  lemma SplitsNext(all: seq<string>, delivered: seq<string>, line: string, rest: seq<string>)
    requires Splits(all, delivered, [line] + rest) || (rest == [] && Splits(all, delivered, [line]))
    ensures Splits(all, delivered + [line], rest)
    ensures all[..|delivered|] == delivered
    ensures |delivered| < |all| && all[..|delivered| + 1] == delivered + [line] <= all
  {
    assert [line] + [] == [line];
  }

  lemma SplitsLast(all: seq<string>, delivered: seq<string>)
    requires Splits(all, delivered, [])
    ensures delivered == all && all[..|delivered|] == delivered
  {
  }

  lemma LineGrows(str: string, a: nat, b: nat)
    requires a <= b < |str| && IsLine(str[a..b]) && !Ends(str[b])
    ensures IsLine(str[a..b + 1])
  {
    assert str[a..b + 1] == str[a..b] + [str[b]];
  }

  lemma NoLineYet(str: string, a: nat)
    requires a <= |str|
    ensures IsLine(str[a..a])
  {
  }

  /** Where the terminator at `b` ends, and the line from `a` to it splits off. */
  lemma TerminatorEnd(str: string, a: nat, b: nat) returns (e: nat)
    requires a <= b < |str| && IsLine(str[a..b]) && Ends(str[b])
    ensures e == if b + 1 < |str| && Ends(str[b + 1]) && str[b + 1] != str[b] then b + 2 else b + 1
    ensures LinesOf(Pieces(str[a..])) == [str[a..b]] + LinesOf(Pieces(str[e..]))
  {
    var rest := str[a..];
    e := b + TerminatorLength(rest, b - a);
    hide LinesOf, Pieces;
    assert rest[..b - a] == str[a..b] && rest[e - a..] == str[e..];
    NextPiece(rest, b - a, e - a);
  }

  // ----- what the split is -----

  /** The conditions that single it out: lines without terminators, each ended by one but perhaps the
      last, which is then not empty, and a one-character terminator only where a longer one is not
      possible. */
  predicate Greedy(ps: seq<Piece>) {
    && (forall i | 0 <= i < |ps| :: IsLine(ps[i].line))
    && (forall i | 0 <= i < |ps| ::
          IsTerminator(ps[i].end) || (i == |ps| - 1 && ps[i].end == "" && ps[i].line != ""))
    && (forall i | 0 <= i < |ps| - 1 ::
          |ps[i].end| == 1 && ps[i + 1].line == "" ==> ps[i + 1].end != "" && ps[i + 1].end[0] == ps[i].end[0])
  }

  lemma GreedyCons(p: Piece, rest: seq<Piece>)
    requires Greedy(rest) && IsLine(p.line) && IsTerminator(p.end)
    requires rest != [] && |p.end| == 1 && rest[0].line == "" ==> rest[0].end != "" && rest[0].end[0] == p.end[0]
    ensures Greedy([p] + rest)
  {
    var ps := [p] + rest;
    assert forall i | 0 < i < |ps| :: ps[i] == rest[i - 1];
  }

  lemma JoinedCons(p: Piece, rest: seq<Piece>)
    ensures Joined([p] + rest) == p.line + p.end + Joined(rest) && Joined([]) == ""
  {
    assert ([p] + rest)[1..] == rest;
  }

  lemma FrontIsGood(s: string)
    requires s != ""
    ensures var p := Front(s); var tail := s[FrontLength(s)..];
      && IsLine(p.line) && s == p.line + p.end + tail
      && (if p.end == "" then tail == "" && p.line != "" else IsTerminator(p.end))
      && (|p.end| == 1 && tail != "" && Ends(tail[0]) ==> tail[0] == p.end[0])
  {
    var n := LineLength(s);
    hide LineLength, Ends;
    assert s[..n] + s[n..FrontLength(s)] + s[FrontLength(s)..] == s;
    assert forall i | 0 <= i < n :: s[..n][i] == s[i];
  }

  lemma {:induction false} PiecesAreGreedy(s: string)
    ensures Greedy(Pieces(s)) && Joined(Pieces(s)) == s
    decreases |s|
  {
    NoPiece();
    hide Pieces, LinesOf, Joined, Greedy, Front, FrontLength, IsLine, IsTerminator;
    if s == "" {
      NothingIsGreedy();
    } else {
      var p, tail := Front(s), s[FrontLength(s)..];
      FirstPiece(s);
      FrontIsGood(s);
      if p.end == "" {
        LastIsGreedy(p.line);
        assert p == Piece(p.line, "") && [p] + [] == [p];
        assert p.line + p.end + tail == p.line;
      } else {
        PiecesAreGreedy(tail);
        PieceIsGreedy(p, tail, Pieces(tail));
      }
    }
  }

  lemma NothingIsGreedy()
    ensures Greedy([]) && Joined([]) == ""
  {
  }

  lemma PieceIsGreedy(p: Piece, tail: string, rest: seq<Piece>)
    requires IsLine(p.line) && IsTerminator(p.end) && rest == Pieces(tail) && Greedy(rest) && Joined(rest) == tail
    requires |p.end| == 1 && tail != "" && Ends(tail[0]) ==> tail[0] == p.end[0]
    ensures Greedy([p] + rest) && Joined([p] + rest) == p.line + p.end + tail
  {
    hide Greedy, Pieces, Joined, IsLine;
    FrontOf(tail);
    hide IsTerminator;
    GreedyCons(p, rest);
    JoinedCons(p, rest);
  }

  lemma LastIsGreedy(s: string)
    requires s != "" && IsLine(s)
    ensures Greedy([Piece(s, "")]) && Joined([Piece(s, "")]) == s
  {
    JoinedCons(Piece(s, ""), []);
    assert [Piece(s, "")] + [] == [Piece(s, "")];
  }

  /** The first piece has no line just when the text begins with a terminator. */
  lemma FrontOf(s: string)
    ensures s != "" ==> Pieces(s) != [] && (Pieces(s)[0].line == "" <==> Ends(s[0]))
    ensures s != "" && Ends(s[0]) ==> Pieces(s)[0].end != "" && Pieces(s)[0].end[0] == s[0]
    ensures s == "" ==> Pieces(s) == []
  {
  }

  /** Nothing else is: pieces that meet the conditions are the split of the text they make. */
  lemma {:induction false} GreedyIsUnique(ps: seq<Piece>)
    requires Greedy(ps)
    ensures Pieces(Joined(ps)) == ps
    decreases |ps|
  {
    if ps == [] {
      NoPiece();
    } else {
      var p, rest := ps[0], ps[1..];
      assert forall i | 0 <= i < |rest| :: rest[i] == ps[i + 1];
      GreedyIsUnique(rest);
      assert ps == [p] + rest;
      JoinedCons(p, rest);
      JoinedCons(p, []);
      SplitFront(p, rest);
    }
  }

  lemma SplitFront(p: Piece, rest: seq<Piece>)
    requires Greedy([p] + rest) && Pieces(Joined(rest)) == rest
    ensures Pieces(p.line + p.end + Joined(rest)) == [p] + rest
  {
    hide Pieces, LinesOf, Joined;
    var ps, tail := [p] + rest, Joined(rest);
    assert ps[0] == p && (rest != [] ==> ps[1] == rest[0]);
    var s := p.line + p.end + tail;
    FrontOf(tail);
    if p.end == "" {
      assert rest == [] && tail == "" by {
        EmptyJoin(rest);
      }
      assert s == p.line;
      LastPiece(s);
    } else {
      var n, e := |p.line|, |p.line| + |p.end|;
      assert s[..n] == p.line && s[n..e] == p.end && s[e..] == tail;
      EndLength(p.line, p.end, tail);
      NextPiece(s, n, e);
    }
  }

  lemma EmptyJoin(rest: seq<Piece>)
    ensures rest == [] ==> Joined(rest) == ""
  {
  }

  lemma EndLength(line: string, end: string, tail: string)
    requires IsTerminator(end) && (|end| == 1 && tail != "" && Ends(tail[0]) ==> tail[0] == end[0])
    ensures TerminatorLength(line + end + tail, |line|) == |end|
  {
    var s := line + end + tail;
    assert s[|line|] == end[0];
    assert |end| == 2 ==> s[|line| + 1] == end[1];
    assert tail != "" && |end| == 1 ==> s[|line| + 1] == tail[0];
  }

  /** Lines written with any one terminator after each are split back. */
  function Terminated(lines: seq<string>, t: string): seq<Piece> {
    seq(|lines|, i requires 0 <= i < |lines| => Piece(lines[i], t))
  }

  lemma JoinThenSplit(lines: seq<string>, t: string)
    requires IsTerminator(t) && forall i | 0 <= i < |lines| :: IsLine(lines[i])
    ensures LinesOf(Pieces(Joined(Terminated(lines, t)))) == lines
  {
    GreedyIsUnique(Terminated(lines, t));
  }
}
