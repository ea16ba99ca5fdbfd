/** src/path.cpp: joining, taking apart and comparing paths. */
module Paths {
  import opened Options

  datatype Platform = Linux | Osx | Windows

  predicate IsSeparator(c: char) {
    c == '/' || c == '\\'
  }

  function DefaultSeparator(p: Platform): char {
    if p.Windows? then '\\' else '/'
  }

  // ----- taking apart -----

  function LastSeparator(path: string): (r: Option<nat>)
    ensures r.Some? ==> r.value < |path| && IsSeparator(path[r.value])
    ensures r.Some? ==> forall i | r.value < i < |path| :: !IsSeparator(path[i])
    ensures r.None? ==> forall i | 0 <= i < |path| :: !IsSeparator(path[i])
  {
    if path == "" then None
    else if IsSeparator(path[|path| - 1]) then Some(|path| - 1)
    else LastSeparator(path[..|path| - 1])
  }

  function LastDot(path: string): (r: Option<nat>)
    ensures r.Some? ==> r.value < |path| && path[r.value] == '.' && forall i | r.value < i < |path| :: path[i] != '.'
    ensures r.None? ==> forall i | 0 <= i < |path| :: path[i] != '.'
  {
    if path == "" then None
    else if path[|path| - 1] == '.' then Some(|path| - 1)
    else LastDot(path[..|path| - 1])
  }

  /** `SplitPath`: where the last separator is, and where the extension begins. */
  function SplitPath(path: string): (Option<nat>, Option<nat>) {
    var lastSep := LastSeparator(path);
    var ext := LastDot(path);
    (lastSep, if ext.Some? && ext.value < lastSep.GetOr(0) then None else ext)
  }

  function PathWithoutExtension(path: string): string {
    var dot := SplitPath(path).1;
    if dot.None? then path else path[..dot.value]
  }

  function PathGetExtension(path: string): string {
    var ext := SplitPath(path).1;
    if ext.None? then "" else path[ext.value..]
  }

  function PathGetFolder(path: string): string {
    var lastSep := SplitPath(path).0;
    if lastSep.None? then "" else path[..lastSep.value + 1]
  }

  function PathGetName(path: string): string {
    var lastSep := SplitPath(path).0;
    if lastSep.None? then path else path[lastSep.value + 1..]
  }

  predicate IsFolder(s: string) {
    s == "" || s[|s| - 1] == '/' || s[|s| - 1] == '\\'
  }

  predicate IsFileName(s: string) {
    '/' !in s && '\\' !in s
  }

  lemma CutAt(path: string, folder: string, name: string)
    requires path == folder + name && IsFolder(folder) && IsFileName(name)
    ensures LastSeparator(path) == if folder == "" then None else Some(|folder| - 1)
    ensures path[..|folder|] == folder && path[|folder|..] == name
  {
    hide LastSeparator;
    assert forall i | 0 <= i < |name| :: path[|folder| + i] == name[i];
    assert folder != "" ==> path[|folder| - 1] == folder[|folder| - 1];
    assert forall i | |folder| <= i < |path| :: path[i] == name[i - |folder|];
  }

  lemma FileNameFrom(path: string, n: nat)
    requires n <= |path| && forall i | n <= i < |path| :: !IsSeparator(path[i])
    ensures IsFileName(path[n..]) && path == path[..n] + path[n..]
  {
    assert forall i | 0 <= i < |path| - n :: path[n..][i] == path[n + i];
  }

  lemma FolderTo(path: string, n: nat)
    requires n < |path| && IsSeparator(path[n])
    ensures IsFolder(path[..n + 1])
  {
  }

  lemma TheCut(path: string)
    ensures path == PathGetFolder(path) + PathGetName(path)
    ensures IsFolder(PathGetFolder(path)) && IsFileName(PathGetName(path))
  {
    hide LastSeparator, IsSeparator, IsFolder, IsFileName;
    var lastSep := LastSeparator(path);
    NoFolder();
    if lastSep.None? {
      FileNameFrom(path, 0);
      assert path[0..] == path && "" + path == path;
    } else {
      FileNameFrom(path, lastSep.value + 1);
      FolderTo(path, lastSep.value);
    }
  }

  lemma NoFolder()
    ensures IsFolder("")
  {
  }

  /** Folder and name are the one way to cut a path before a name without separators, after nothing
      or a separator. */
  lemma FolderAndName(path: string, folder: string, name: string)
    ensures (path == folder + name && IsFolder(folder) && IsFileName(name)) <==>
            (folder == PathGetFolder(path) && name == PathGetName(path))
  {
    hide LastSeparator, IsFolder, IsFileName;
    TheCut(path);
    if path == folder + name && IsFolder(folder) && IsFileName(name) {
      CutAt(path, folder, name);
    }
  }

  /** A dot and what follows it, without further dots or separators. */
  predicate IsExtension(s: string) {
    s != "" && s[0] == '.' && '.' !in s[1..] && '/' !in s && '\\' !in s
  }

  function NameStart(path: string): (n: nat)
    ensures n <= |path| && (n > 0 ==> IsSeparator(path[n - 1])) && forall i | n <= i < |path| :: !IsSeparator(path[i])
    ensures PathGetName(path) == path[n..]
  {
    var lastSep := LastSeparator(path);
    if lastSep.None? then 0 else lastSep.value + 1
  }

  function ExtensionStart(path: string): (n: nat)
    ensures NameStart(path) <= n <= |path| && forall i | NameStart(path) <= i < |path| && n < i :: path[i] != '.'
    ensures if n < |path| then path[n] == '.' else forall i | NameStart(path) <= i < |path| :: path[i] != '.'
    ensures PathGetExtension(path) == path[n..] && PathWithoutExtension(path) == path[..n]
  {
    var ext := SplitPath(path).1;
    assert path[|path|..] == "" && path[..|path|] == path;
    if ext.None? then |path| else ext.value
  }

  lemma DotInName(path: string, n: nat, e: nat)
    requires n <= e <= |path| && forall i | n <= i < |path| && e < i :: path[i] != '.'
    requires if e < |path| then path[e] == '.' else forall i | n <= i < |path| :: path[i] != '.'
    ensures '.' in path[n..] <==> e < |path|
  {
    var name := path[n..];
    if e < |path| {
      assert name[e - n] == '.';
    } else {
      assert forall i | 0 <= i < |name| :: name[i] == path[n + i];
    }
  }

  lemma ExtensionFrom(path: string, n: nat, e: nat)
    requires n <= e < |path| && path[e] == '.'
    requires forall i | n <= i < |path| :: !IsSeparator(path[i])
    requires forall i | n <= i < |path| && e < i :: path[i] != '.'
    ensures IsExtension(path[e..])
  {
    var ext := path[e..];
    assert forall i | 0 <= i < |ext| :: ext[i] == path[e + i];
  }

  lemma TailOfTail(path: string, n: nat, e: nat)
    requires n <= e <= |path|
    ensures path[n..][e - n..] == path[e..] && path[..e] + path[e..] == path
  {
  }

  /** Stem and extension rebuild the path, and the extension is the end of the name: all of it from
      its last dot, or nothing if the name has no dot. */
  lemma StemAndExtension(path: string)
    ensures PathWithoutExtension(path) + PathGetExtension(path) == path
    ensures var name, ext := PathGetName(path), PathGetExtension(path);
      && |ext| <= |name| && name[|name| - |ext|..] == ext
      && (if '.' in name then IsExtension(ext) else ext == "")
  {
    hide IsExtension, IsSeparator, PathGetName, PathGetExtension, PathWithoutExtension;
    var n, e := NameStart(path), ExtensionStart(path);
    hide NameStart, ExtensionStart;
    TailOfTail(path, n, e);
    DotInName(path, n, e);
    if e < |path| {
      ExtensionFrom(path, n, e);
    }
  }

  /** And it is the only way to cut off such an ending. */
  lemma OneExtension(path: string, stem: string, ext: string)
    requires path == stem + ext && IsExtension(ext)
    ensures stem == PathWithoutExtension(path) && ext == PathGetExtension(path)
  {
    hide PathGetName, PathGetExtension, PathWithoutExtension;
    var n, e := NameStart(path), ExtensionStart(path);
    hide NameStart, ExtensionStart;
    var k := |stem|;
    assert forall i | 0 <= i < |ext| :: path[k + i] == ext[i];
    assert forall i | k < i < |path| :: path[i] == ext[i - k];
    assert path[k] == '.';
    assert n <= k;
    assert e == k;
    assert path[..k] == stem && path[k..] == ext;
  }

  // ----- joining -----

  function PathIsAbsolute(p: Platform, path: string): bool {
    path != "" && (IsSeparator(path[0]) || (p.Windows? && |path| >= 2 && path[1] == ':'))
  }

  function PathJoined(p: Platform, a: string, b: string): string {
    if a == "" then b
    else if b == "" then a
    else if PathIsAbsolute(p, b) then b
    else if IsSeparator(a[|a| - 1]) then a + b
    else a + [DefaultSeparator(p)] + b
  }

  /** Joining a relative path on leaves the first as it began. */
  lemma JoinedKeepsAbsolute(p: Platform, a: string, b: string)
    requires a != "" && b != "" && !PathIsAbsolute(p, b)
    ensures PathIsAbsolute(p, PathJoined(p, a, b)) <==> PathIsAbsolute(p, a)
    ensures var j := PathJoined(p, a, b); j != "" && j[|j| - 1] == b[|b| - 1]
  {
  }

  /** Joining is associative and the empty path is its identity, so any number of parts has one
      join, however it is bracketed. */
  lemma JoinedAssociative(p: Platform, a: string, b: string, c: string)
    ensures PathJoined(p, PathJoined(p, a, b), c) == PathJoined(p, a, PathJoined(p, b, c))
    ensures PathJoined(p, "", a) == a && PathJoined(p, a, "") == a
  {
    if a != "" && b != "" && c != "" && !PathIsAbsolute(p, c) {
      JoinedKeepsAbsolute(p, b, c);
      if !PathIsAbsolute(p, b) {
        RelativesAssociate(p, a, b, c);
      }
    }
  }

  lemma RelativesAssociate(p: Platform, a: string, b: string, c: string)
    requires a != "" && b != "" && c != "" && !PathIsAbsolute(p, b) && !PathIsAbsolute(p, c)
    ensures PathJoined(p, PathJoined(p, a, b), c) == PathJoined(p, a, PathJoined(p, b, c))
  {
    JoinedKeepsAbsolute(p, b, c);
    JoinedKeepsAbsolute(p, a, b);
    hide PathJoined, PathIsAbsolute;
    var ab, bc := PathJoined(p, a, b), PathJoined(p, b, c);
    JoinedRelative(p, a, b);
    JoinedRelative(p, b, c);
    JoinedRelative(p, ab, c);
    JoinedRelative(p, a, bc);
    assert Glue(p, ab) == Glue(p, b);
    hide Glue;
    Reassociate(a, Glue(p, a), b, Glue(p, b), c);
  }

  lemma Reassociate(a: string, g: string, b: string, h: string, c: string)
    ensures (a + g + b) + h + c == a + g + (b + h + c)
  {
  }

  /** What goes between. */
  function Glue(p: Platform, a: string): string
    requires a != ""
  {
    if IsSeparator(a[|a| - 1]) then "" else [DefaultSeparator(p)]
  }

  lemma JoinedRelative(p: Platform, a: string, b: string)
    requires a != "" && b != "" && !PathIsAbsolute(p, b)
    ensures PathJoined(p, a, b) == a + Glue(p, a) + b
  {
    assert a + "" + b == a + b;
  }

  /** The second path alone is the join if and only if it is absolute: it begins with a separator or, on
      Windows, with a drive. Otherwise it follows the first, after one separator. */
  lemma JoinedIs(p: Platform, a: string, b: string)
    requires a != "" && b != ""
    ensures PathJoined(p, a, b) == b <==>
            b[0] == '/' || b[0] == '\\' || (p.Windows? && |b| >= 2 && b[1] == ':')
    ensures PathJoined(p, a, b) != b ==>
      PathJoined(p, a, b) ==
        if a[|a| - 1] == '/' || a[|a| - 1] == '\\' then a + b
        else if p.Windows? then a + "\\" + b else a + "/" + b
  {
    assert |a + b| > |b|;
  }

  // ----- comparing -----

  /** A `char`, signed. */
  type Char = c: int | -128 <= c < 128

  function Fold(p: Platform, c: int): int {
    var lower := if !p.Linux? && 'A' as int <= c <= 'Z' as int then c + 32 else c;
    if p.Windows? && lower == '\\' as int then '/' as int else lower
  }

  function Folded(p: Platform, s: seq<int>): (t: seq<int>)
    ensures |t| == |s|
  {
    seq(|s|, i requires 0 <= i < |s| => Fold(p, s[i]))
  }

  /** The character at an index; the one past the end is NUL. */
  function At(s: seq<int>, i: nat): int {
    if i < |s| then s[i] else 0
  }

  /** Comparison from index `i` on. */
  function Compare(a: seq<int>, b: seq<int>, i: nat): int
    requires i <= |a| && i <= |b|
    decreases |a| - i
  {
    if i == |a| && i == |b| then 0
    else if i == |a| || At(a, i) < At(b, i) then -1
    else if i == |b| || At(a, i) > At(b, i) then 1
    else Compare(a, b, i + 1)
  }

  method PathCompare(p: Platform, a: seq<Char>, b: seq<Char>) returns (r: int)
    ensures r == Compare(Folded(p, a), Folded(p, b), 0)
  {
    var ai, bi := 0, 0;
    ghost var x, y := Folded(p, a), Folded(p, b);
    while true
      invariant 0 <= ai <= |a| && bi == ai && bi <= |b|
      invariant Compare(x, y, ai) == Compare(x, y, 0)
      decreases |a| - ai
    {
      var ea := ai == |a|;
      var eb := bi == |b|;
      if ea && eb {
        break;
      }
      var ca := Fold(p, At(a, ai));
      var cb := Fold(p, At(b, bi));
      if ea || ca < cb {
        return -1;
      } else if eb || ca > cb {
        return 1;
      }
      ai := ai + 1;
      bi := bi + 1;
    }
    return 0;
  }

  /** Equal from `i` up to where one of them ends, and the other goes on with a negative character. */
  predicate EndsBeforeNegative(a: seq<int>, b: seq<int>, i: nat)
    requires i <= |a| && i <= |b|
  {
    |a| < |b| && a[i..] == b[i..|a|] && b[|a|] < 0
  }

  /** The comparison is antisymmetric, unless one path is a proper prefix of the other and the
      character after it is negative: then each counts as less than the other. */
  lemma {:induction false} CompareAntisymmetric(a: seq<int>, b: seq<int>, i: nat)
    requires i <= |a| && i <= |b|
    ensures Compare(a, b, i) == -Compare(b, a, i) <==>
            !EndsBeforeNegative(a, b, i) && !EndsBeforeNegative(b, a, i)
    decreases |a| - i
  {
    if i < |a| && i < |b| && a[i] == b[i] {
      CompareAntisymmetric(a, b, i + 1);
      Onward(a, b, i);
      Onward(b, a, i);
    } else if i < |a| && i < |b| {
      assert |a| < |b| ==> a[i..][0] != b[i..|a|][0];
      assert |b| < |a| ==> b[i..][0] != a[i..|b|][0];
    }
  }

  lemma Onward(a: seq<int>, b: seq<int>, i: nat)
    requires i < |a| && i < |b| && a[i] == b[i]
    ensures EndsBeforeNegative(a, b, i) <==> EndsBeforeNegative(a, b, i + 1)
  {
    if |a| < |b| {
      assert a[i..] == [a[i]] + a[i + 1..] && b[i..|a|] == [b[i]] + b[i + 1..|a|];
    }
  }

  /** For any characters at all, 0 means equal. */
  lemma {:induction false} CompareZero(a: seq<int>, b: seq<int>, i: nat)
    requires i <= |a| && i <= |b|
    ensures Compare(a, b, i) == 0 <==> a[i..] == b[i..]
    decreases |a| - i
  {
    if i < |a| && i < |b| {
      CompareZero(a, b, i + 1);
      assert a[i..] == [a[i]] + a[i + 1..] && b[i..] == [b[i]] + b[i + 1..];
    }
  }

  /** Up to case, off Linux; and up to the kind of separator, on Windows. */
  predicate SameChar(p: Platform, x: int, y: int) {
    || x == y
    || (!p.Linux? && 'A' as int <= x <= 'Z' as int && y == x + 32)
    || (!p.Linux? && 'A' as int <= y <= 'Z' as int && x == y + 32)
    || (p.Windows? && {x, y} == {'/' as int, '\\' as int})
  }

  lemma FoldIs(p: Platform, x: int, y: int)
    ensures Fold(p, x) == Fold(p, y) <==> SameChar(p, x, y)
  {
    assert {x, y} == {'/' as int, '\\' as int} <==> (x == 47 && y == 92) || (x == 92 && y == 47) by {
      if {x, y} == {'/' as int, '\\' as int} {
        assert x in {'/' as int, '\\' as int} && y in {'/' as int, '\\' as int};
        assert '/' as int in {x, y} && '\\' as int in {x, y};
      }
    }
  }

  /** Paths compare equal if and only if they are as long and the same character by character. */
  lemma CompareSame(p: Platform, a: seq<Char>, b: seq<Char>)
    ensures Compare(Folded(p, a), Folded(p, b), 0) == 0 <==>
            |a| == |b| && forall i | 0 <= i < |a| :: SameChar(p, a[i], b[i])
  {
    hide Fold, SameChar;
    var x, y := Folded(p, a), Folded(p, b);
    CompareZero(x, y, 0);
    assert x[0..] == x && y[0..] == y;
    forall i | 0 <= i < |a| && i < |b|
      ensures x[i] == y[i] <==> SameChar(p, a[i], b[i])
    {
      FoldIs(p, a[i], b[i]);
    }
  }

  /** The first difference decides: the path with the smaller character there, or the one that ends, is
      less; and after the end of the other, a negative character is less as well. */
  lemma {:induction false} CompareFirst(a: seq<int>, b: seq<int>, i: nat, k: nat)
    requires i <= k <= |a| && k < |b| && forall j | i <= j < k :: a[j] == b[j]
    ensures k < |a| && a[k] < b[k] ==> Compare(a, b, i) == -1 && Compare(b, a, i) == 1
    ensures k == |a| ==> Compare(a, b, i) == -1 && Compare(b, a, i) == if b[k] < 0 then -1 else 1
    decreases k - i
  {
    if i < k {
      CompareFirst(a, b, i + 1, k);
    }
  }

  predicate NoNegative(s: seq<int>) {
    forall i | 0 <= i < |s| :: s[i] >= 0
  }

  /** The comparison is transitive, except that a path which counts as less than two others because it
      is a proper prefix of both, each going on with a negative character, stands between them even if
      they are the wrong way round. */
  lemma {:induction false} CompareTransitive(a: seq<int>, b: seq<int>, c: seq<int>, i: nat)
    requires i <= |a| && i <= |b| && i <= |c|
    requires Compare(a, c, i) > 0
    ensures Compare(a, b, i) <= 0 && Compare(b, c, i) <= 0 <==>
            EndsBeforeNegative(b, a, i) && EndsBeforeNegative(b, c, i)
    decreases |a| - i
  {
    if i < |a| && i < |b| && a[i] == b[i] {
      Onward(b, a, i);
    }
    if i < |c| && i < |b| && c[i] == b[i] {
      Onward(b, c, i);
    }
    if i < |a| && i < |b| && i < |c| && a[i] == b[i] == c[i] {
      CompareTransitive(a, b, c, i + 1);
    } else if i < |b| {
      assert i < |a| && |b| < |a| ==> b[i..][0] == b[i] && a[i..|b|][0] == a[i];
      assert i < |c| && |b| < |c| ==> b[i..][0] == b[i] && c[i..|b|][0] == c[i];
    }
  }

  /** On paths of characters 0 to 127 this is a total preorder, with 0 for equal folded paths; on
      Linux, where nothing is folded, a total order. */
  lemma CompareIsOrder(p: Platform, a: seq<Char>, b: seq<Char>, c: seq<Char>)
    requires NoNegative(a) && NoNegative(b) && NoNegative(c)
    ensures var x, y, z := Folded(p, a), Folded(p, b), Folded(p, c);
      && Compare(x, y, 0) == -Compare(y, x, 0)
      && (Compare(x, y, 0) == 0 <==> x == y)
      && (Compare(x, y, 0) <= 0 && Compare(y, z, 0) <= 0 ==> Compare(x, z, 0) <= 0)
      && (p.Linux? ==> (Compare(x, y, 0) == 0 <==> a == b))
  {
    var x, y, z := Folded(p, a), Folded(p, b), Folded(p, c);
    assert NoNegative(x) && NoNegative(y) && NoNegative(z);
    CompareAntisymmetric(x, y, 0);
    CompareZero(x, y, 0);
    assert x[0..] == x && y[0..] == y;
    if Compare(x, z, 0) > 0 {
      CompareTransitive(x, y, z, 0);
    }
    if p.Linux? {
      assert x == a && y == b;
    }
  }

  /** With a negative character after it the empty path is less than the path and more than it. */
  lemma NegativeCharacterBreaksOrder()
    ensures Compare([], [-1], 0) == -1 && Compare([-1], [], 0) == -1
    ensures Compare([], [-2], 0) == -1 && Compare([-1], [-2], 0) == 1
  {
  }
}
