/** src/log.cpp: the log's character machine (prefix, tab continuation, indent, column), its
    bounded buffer, and its saturating indent stack. */
module Log {
  import Indents = IndentStack
  import opened Options

  const MAX_PREFIX_SIZE: nat := 50
  const MAX_INDENT_STACK_DEPTH: nat := Indents.MAX_INDENT_STACK_DEPTH
  const MAX_BUFFER_SIZE: nat := 500

  /** Somewhere to print to; it keeps what it is given. */
  class LogPrinter {
    var chunks: seq<string>

    method Print(str: string)
      modifies this
      ensures chunks == old(chunks) + [str]
    {
      chunks := chunks + [str];
    }
  }

  // ----- what the log is to write: the pure rendering -----

  function Spaces(n: int): (s: string)
    ensures |s| == if n < 0 then 0 else n
    ensures forall c | c in s :: c == ' '
  {
    seq(if n < 0 then 0 else n, _ => ' ')
  }

  function CutPrefix(prefix: string): (p: string)
    ensures |p| < MAX_PREFIX_SIZE
    ensures p == if |prefix| < 50 then prefix else prefix[..49]
  {
    if |prefix| < MAX_PREFIX_SIZE then prefix else prefix[..MAX_PREFIX_SIZE - 1]
  }

  /** What stands before the text of a line: the prefix, or as much blank on a line that begins
      with a tab. */
  function Header(prefix: string, continued: bool): string {
    if prefix == "" then ""
    else if continued then Spaces(|prefix| + 2)
    else prefix + ": "
  }

  function RenderChar(prefix: string, indent: int, bol: bool, c: char): string {
    (if bol then Header(prefix, c == '\t') + Spaces(indent) else "") + (if bol && c == '\t' then "" else [c])
  }

  function ColumnAfterRaw(column: int, c: char): int {
    if c == '\n' || c == '\r' then 0 else column + 1
  }

  function ColumnAfterChar(indent: int, bol: bool, column: int, c: char): int {
    var start := if bol then |Spaces(indent)| else column;
    if bol && c == '\t' then start else ColumnAfterRaw(start, c)
  }

  type Tagged = seq<(LogPrinter?, char)>

  function Tag(p: LogPrinter?, s: string): (t: Tagged)
    ensures |t| == |s|
  {
    seq(|s|, i requires 0 <= i < |s| => (p, s[i]))
  }

  /** The log as its caller sees it: where it stands in the line, and every character written so
      far with the printer installed at the time. */
  datatype View = View(prefix: string, printer: LogPrinter?, indent: int, bol: bool, column: int, written: Tagged)

  function TypeChar(v: View, c: char): View {
    v.(bol := c == '\n',
       column := ColumnAfterChar(v.indent, v.bol, v.column, c),
       written := v.written + Tag(v.printer, RenderChar(v.prefix, v.indent, v.bol, c)))
  }

  /** What a character does, spelt out. */
  lemma CharWritten(v: View, c: char)
    ensures var u, blanks := TypeChar(v, c), Spaces(v.indent);
      && u == v.(bol := u.bol, column := u.column, written := u.written)
      && (u.bol <==> c == '\n')
      && (!v.bol ==> u.written == v.written + Tag(v.printer, [c]))
      && (v.bol && c == '\t' ==> u.column == |blanks|)
      && (v.bol && c == '\t' && v.prefix == "" ==> u.written == v.written + Tag(v.printer, blanks))
      && (v.bol && c == '\t' && v.prefix != "" ==>
            u.written == v.written + Tag(v.printer, Spaces(|v.prefix| + 2) + blanks))
      && (v.bol && c != '\t' && v.prefix == "" ==> u.written == v.written + Tag(v.printer, blanks + [c]))
      && (v.bol && c != '\t' && v.prefix != "" ==>
            u.written == v.written + Tag(v.printer, v.prefix + ": " + blanks + [c]))
      && (!(v.bol && c == '\t') ==>
            u.column == if c == '\n' || c == '\r' then 0 else (if v.bol then |blanks| else v.column) + 1)
  {
    hide Spaces, Tag;
    var text := RenderChar(v.prefix, v.indent, v.bol, c);
    var blanks := Spaces(v.indent);
    assert v.bol && c == '\t' && v.prefix == "" ==> text == blanks;
    assert v.bol && c != '\t' && v.prefix == "" ==> text == blanks + [c];
    assert v.bol && c == '\t' && v.prefix != "" ==> text == Spaces(|v.prefix| + 2) + blanks;
    assert !v.bol ==> text == [c];
  }

  /** The view after each character of `text` in turn. */
  function Type(v: View, text: string): View {
    if text == "" then v else TypeChar(Type(v, text[..|text| - 1]), text[|text| - 1])
  }

  lemma {:induction false} TypeAppend(v: View, s: string, t: string)
    ensures Type(v, s + t) == Type(Type(v, s), t)
  {
    if t == "" {
      assert s + t == s;
    } else {
      assert (s + t)[..|s + t| - 1] == s + t[..|t| - 1];
      TypeAppend(v, s, t[..|t| - 1]);
    }
  }

  lemma {:induction false} TypeKeeps(v: View, text: string)
    ensures var u := Type(v, text); u.prefix == v.prefix && u.printer == v.printer && u.indent == v.indent
  {
    if text != "" {
      TypeKeeps(v, text[..|text| - 1]);
    }
  }

  /** A disabled log ignores what is typed. */
  function Typed(enabled: bool, v: View, text: string): View {
    if enabled then Type(v, text) else v
  }

  lemma TypedAppend(enabled: bool, v: View, s: string, t: string)
    ensures Typed(enabled, v, s + t) == Typed(enabled, Typed(enabled, v, s), t)
    ensures Typed(enabled, v, "") == v
  {
    hide Type;
    TypeAppend(v, s, t);
    TypeNothing(v);
  }

  /** What is typed and what is to come make up a text. */
  ghost predicate Splits(all: string, done: string, rest: string) {
    done + rest == all
  }

  lemma SplitsNext(all: string, done: string, x: string, rest: string)
    requires Splits(all, done, x + rest)
    ensures Splits(all, done + x, rest)
  {
  }

  lemma SplitsEnds(all: string, done: string)
    ensures Splits(all, "", all) && (Splits(all, done, "") ==> done == all)
  {
  }

  // ----- the flushed chunks -----

  type Chunks = seq<(LogPrinter?, string)>

  function Flat(chunks: Chunks): Tagged {
    if chunks == [] then []
    else Flat(chunks[..|chunks| - 1]) + Tag(chunks[|chunks| - 1].0, chunks[|chunks| - 1].1)
  }

  lemma FlatAppend(chunks: Chunks, p: LogPrinter?, s: string)
    ensures Flat(chunks + [(p, s)]) == Flat(chunks) + Tag(p, s)
  {
    assert (chunks + [(p, s)])[..|chunks|] == chunks;
  }

  lemma TagAppend(p: LogPrinter?, s: string, t: string)
    ensures Tag(p, s + t) == Tag(p, s) + Tag(p, t) && Tag(p, "") == []
  {
  }

  function Texts(chunks: Chunks): seq<string> {
    seq(|chunks|, i requires 0 <= i < |chunks| => chunks[i].1)
  }

  /** From index `from` on, the chunks went to printer `p`, whose own record grew from `before` to
      `after` by just those. */
  ghost predicate Extends(from: nat, chunks: Chunks, p: LogPrinter?, before: seq<string>, after: seq<string>) {
    from <= |chunks| &&
    (forall i | from <= i < |chunks| :: chunks[i].0 == p) &&
    after == before + (if p == null then [] else Texts(chunks[from..]))
  }

  lemma ExtendsNothing(chunks: Chunks, p: LogPrinter?, before: seq<string>)
    ensures Extends(|chunks|, chunks, p, before, before)
  {
    assert Texts(chunks[|chunks|..]) == [];
  }

  lemma ExtendsOne(from: nat, chunks: Chunks, p: LogPrinter?, before: seq<string>, after: seq<string>, s: string)
    requires Extends(from, chunks, p, before, after)
    ensures Extends(from, chunks + [(p, s)], p, before, after + if p == null then [] else [s])
  {
    assert (chunks + [(p, s)])[from..] == chunks[from..] + [(p, s)];
    assert Texts(chunks[from..] + [(p, s)]) == Texts(chunks[from..]) + [s];
  }

  ghost function Printed(p: LogPrinter?): seq<string>
    reads p
  {
    if p == null then [] else p.chunks
  }

  /** Non-empty, and ended by any newline it has. */
  predicate Chunky(s: string) {
    s != "" && forall i | 0 <= i < |s| - 1 :: s[i] != '\n'
  }

  lemma TypeCharParts(v: View, c: char)
    ensures
      var start := if v.bol then Header(v.prefix, c == '\t') + Spaces(v.indent) else "";
      var written := v.written + Tag(v.printer, start);
      var column := if v.bol then |Spaces(v.indent)| else v.column;
      TypeChar(v, c) == v.(bol := c == '\n',
                           written := if v.bol && c == '\t' then written else written + Tag(v.printer, [c]),
                           column := if v.bol && c == '\t' then column else ColumnAfterRaw(column, c))
  {
    hide Tag, Header;
    var start := if v.bol then Header(v.prefix, c == '\t') + Spaces(v.indent) else "";
    TagAppend(v.printer, start, if v.bol && c == '\t' then "" else [c]);
  }

  class Log {
    const buffer: array<char>
    const indentStack: array<int>
    var prefix: string
    var printer: LogPrinter?
    var enabled: bool
    var bol: bool
    var column: int
    var indent: int
    var indentStackDepth: nat
    var bufferSize: nat
    ghost var written: Tagged
    ghost var sent: Chunks

    /** The buffer holds what is written but not yet sent. */
    ghost predicate Ready()
      reads this`prefix, this`printer, this`bufferSize, this`written, this`sent, buffer, indentStack
    {
      buffer.Length == MAX_BUFFER_SIZE && indentStack.Length == MAX_INDENT_STACK_DEPTH &&
      buffer as object != indentStack && |prefix| < MAX_PREFIX_SIZE &&
      bufferSize < MAX_BUFFER_SIZE &&
      Flat(sent) + Tag(printer, buffer[..bufferSize]) == written &&
      (bufferSize > 0 ==> Chunky(buffer[..bufferSize])) &&
      (forall i | 0 <= i < |sent| :: Chunky(sent[i].1))
    }

    /** Between characters a newline is never kept back, and there is room for one more. */
    ghost predicate Stored()
      reads this`prefix, this`printer, this`bufferSize, this`written, this`sent, buffer, indentStack
    {
      Ready() && bufferSize <= MAX_BUFFER_SIZE - 2 && '\n' !in buffer[..bufferSize]
    }

    ghost predicate Valid()
      reads this, buffer, indentStack
    {
      Stored() && 0 <= column && (bol ==> column == 0)
    }

    ghost function V(): View
      reads this`prefix, this`printer, this`indent, this`bol, this`column, this`written
    {
      View(prefix, printer, indent, bol, column, written)
    }

    ghost function I(): Indents.Indents
      reads this, indentStack
    {
      Indents.Indents(indent, indentStack[..], indentStackDepth)
    }

    /** Everything flushed since the old state went to the printer, in order, and likewise since any
        state before it. */
    twostate predicate Delivered()
      reads this`sent, this`printer, printer
    {
      printer == old(printer) && old(sent) <= sent && From(|old(sent)|, old(Printed(printer))) &&
      forall from: nat, before: seq<string> :: old(From(from, before)) ==> From(from, before)
    }

    /** All chunks from index `from` on went to the printer now installed, whose record was `before`. */
    ghost predicate From(from: nat, before: seq<string>)
      reads this`sent, this`printer, printer
    {
      Extends(from, sent, printer, before, Printed(printer))
    }

    lemma NothingSent()
      ensures From(|sent|, Printed(printer))
    {
      ExtendsNothing(sent, printer, Printed(printer));
    }

    method Flush()
      requires Ready()
      modifies this`bufferSize, this`sent, printer
      ensures Stored() && V() == old(V()) && bufferSize == 0 && Delivered()
    {
      hide Flat, Tag, Chunky, Extends;
      NothingSent();
      if bufferSize == 0 {
        return;
      }
      ghost var sent0, printed0 := sent, Printed(printer);
      var chunk := buffer[..bufferSize];
      FlatAppend(sent, printer, chunk);
      ExtendsOne(|sent|, sent, printer, Printed(printer), Printed(printer), chunk);
      TagAppend(printer, chunk, "");
      if printer != null {
        printer.Print(chunk);
      }
      sent := sent + [(printer, chunk)];
      bufferSize := 0;
      assert buffer[..bufferSize] == "";
      forall from: nat, before: seq<string> | old(From(from, before))
        ensures From(from, before)
      {
        ExtendsOne(from, sent0, printer, before, printed0, chunk);
      }
    }

    /** `m_buffer[m_buffer_size++] = c`. */
    method Put(c: char)
      requires Stored()
      modifies this`bufferSize, this`written, buffer
      ensures Ready() && bufferSize == old(bufferSize) + 1
      ensures c != '\n' ==> '\n' !in buffer[..bufferSize]
      ensures written == old(written) + Tag(printer, [c])
    {
      hide Flat, Tag;
      ghost var was := buffer[..bufferSize];
      TagAppend(printer, was, [c]);
      buffer[bufferSize] := c;
      bufferSize := bufferSize + 1;
      written := written + Tag(printer, [c]);
      assert buffer[..bufferSize] == was + [c];
    }

    method RawChar(c: char)
      requires Stored()
      modifies this`bufferSize, this`sent, this`column, this`written, buffer, printer
      ensures Stored() && Delivered()
      ensures written == old(written) + Tag(printer, [c]) && column == ColumnAfterRaw(old(column), c)
      ensures bufferSize == if c == '\n' || old(bufferSize) == 498 then 0 else old(bufferSize) + 1
    {
      hide Flat, Tag, Chunky, Log.From;
      NothingSent();
      Put(c);
      if c == '\n' || bufferSize == MAX_BUFFER_SIZE - 1 {
        Flush();
      }
      column := ColumnAfterRaw(column, c);
    }

    /** One of the loops of `c` that write a character at a time. */
    method RawChars(s: string)
      requires Stored()
      modifies this`bufferSize, this`sent, this`column, this`written, buffer, printer
      ensures Stored() && Delivered()
      ensures written == old(written) + Tag(printer, s)
      ensures '\n' !in s && '\r' !in s ==> column == old(column) + |s|
    {
      hide Flat, Tag, Chunky, Log.Stored, Log.From;
      TagAppend(printer, "", "");
      NothingSent();
      for i := 0 to |s|
        invariant Stored() && Delivered()
        invariant written == old(written) + Tag(printer, s[..i])
        invariant '\n' !in s && '\r' !in s ==> column == old(column) + i
      {
        TagAppend(printer, s[..i], [s[i]]);
        RawChar(s[i]);
        assert s[..i + 1] == s[..i] + [s[i]];
      }
      assert s[..|s|] == s;
    }

    /** What `c` does at the beginning of a line: the prefix and ": ", or as many spaces before a
        tab, then the indent. Columns spent on the prefix do not count. */
    method LineStart(c: char)
      requires Stored()
      modifies this`bufferSize, this`sent, this`column, this`written, buffer, printer
      ensures Stored() && Delivered()
      ensures written == old(written) + Tag(printer, Header(prefix, c == '\t') + Spaces(indent))
      ensures column == |Spaces(indent)|
    {
      hide Flat, Tag, Chunky, Log.From, Log.Stored, Spaces;
      ghost var head := Header(prefix, c == '\t');
      TagAppend(printer, head, Spaces(indent));
      NothingSent();
      if prefix != "" {
        if c == '\t' {
          TwoMoreBlanks(|prefix|);
          RawChars(Spaces(|prefix|) + "  ");
        } else {
          RawChars(prefix + ": ");
        }
      }
      column := 0;
      RawChars(Spaces(indent));
    }

    method C(c: char)
      requires Valid()
      modifies this`bufferSize, this`sent, this`column, this`written, this`bol, buffer, printer
      ensures Valid() && Delivered()
      ensures V() == if enabled then TypeChar(old(V()), c) else old(V())
      ensures enabled && !old(bol) ==> written == old(written) + Tag(printer, [c])
      ensures enabled && old(bol) && prefix == "" ==>
        written == old(written) + Tag(printer, if c == '\t' then Spaces(indent) else Spaces(indent) + [c])
      ensures enabled && old(bol) && prefix != "" && c == '\t' ==>
        written == old(written) + Tag(printer, Spaces(|prefix| + 2) + Spaces(indent))
      ensures enabled && old(bol) && prefix != "" && c != '\t' ==>
        written == old(written) + Tag(printer, prefix + ": " + Spaces(indent) + [c])
    {
      hide Flat, Tag, Chunky, Header, Spaces, RenderChar, TypeChar, Log.From, Log.Stored;
      CharWritten(V(), c);
      NothingSent();
      if !enabled {
        return;
      }
      TypeCharParts(V(), c);
      var shown := true;
      if bol {
        LineStart(c);
        shown := c != '\t';
      }
      if shown {
        RawChar(c);
      }
      bol := c == '\n';
    }

    method S(str: string)
      requires Valid()
      modifies this`bufferSize, this`sent, this`column, this`written, this`bol, buffer, printer
      ensures Valid() && Delivered()
      ensures V() == Typed(enabled, old(V()), str)
    {
      hide Flat, Tag, Chunky, TypeChar, Log.From;
      NothingSent();
      if !enabled {
        return;
      }
      ghost var v := V();
      for i := 0 to |str|
        invariant Valid() && Delivered()
        invariant V() == Type(v, str[..i])
      {
        C(str[i]);
        assert str[..i + 1][..i] == str[..i];
      }
      assert str[..|str|] == str;
    }

    method SetLogPrinter(p: LogPrinter?)
      requires Valid()
      modifies this`bufferSize, this`sent, this`printer, printer
      ensures Valid() && printer == p && V() == old(V()).(printer := p)
      ensures p != old(printer) ==> bufferSize == 0
      ensures old(sent) <= sent
      ensures Extends(|old(sent)|, sent, old(printer), old(Printed(printer)), Printed(old(printer)))
    {
      NothingSent();
      hide Flat, Tag, Chunky, Extends;
      if p != printer {
        Flush();
        TagAppend(printer, "", "");
        TagAppend(p, "", "");
        printer := p;
      }
    }

    /** `msg` is the formatted message; None is a null format. */
    method EnsureBOL(msg: Option<string>)
      requires Valid()
      modifies this`bufferSize, this`sent, this`column, this`written, this`bol, buffer, printer
      ensures Valid() && Delivered()
      ensures enabled ==> bol
      ensures old(bol) || !enabled ==> V() == old(V())
      ensures enabled && !old(bol) ==>
        var v := if msg.Some? then Type(old(V()), msg.value) else old(V());
        V() == if v.bol then v else Type(v, "\n")
    {
      hide Log.From;
      NothingSent();
      if !bol {
        if msg.Some? {
          S(msg.value);
        }
        if !bol {
          S("\n");
          assert enabled ==> bol;
        }
      }
    }

    /** A prefix that is too long is cut, as `strlcpy` does. */
    constructor (prefix: string, printer: LogPrinter?, enabled: bool)
      ensures Valid() && V() == View(CutPrefix(prefix), printer, 0, true, 0, []) && this.enabled == enabled
      ensures sent == [] && I().Valid() && I().indent == 0 && I().depth == 0
      ensures fresh(buffer) && fresh(indentStack)
    {
      this.prefix, this.printer, this.enabled := CutPrefix(prefix), printer, enabled;
      bol, column, indent := true, 0, 0;
      buffer := new char[MAX_BUFFER_SIZE](_ => '\0');
      indentStack := new int[MAX_INDENT_STACK_DEPTH](_ => 0);
      indentStackDepth, bufferSize := 0, 0;
      written, sent := [], [];
      new;
      TagAppend(printer, "", "");
      assert buffer[..bufferSize] == "";
    }

    /** The destructor: nothing written to a printer is left behind in the buffer. */
    method Destroy()
      requires Valid()
      modifies this`bufferSize, this`sent, this`printer, printer
      ensures old(printer) != null ==> Flat(sent) == old(written)
      ensures old(sent) <= sent
      ensures Extends(|old(sent)|, sent, old(printer), old(Printed(printer)), Printed(old(printer)))
    {
      TagAppend(null, "", "");
      SetLogPrinter(null);
      assert bufferSize == 0 ==> buffer[..bufferSize] == "";
    }

    method PushIndentInternal(newIndent: int)
      requires Valid()
      modifies this`indent, this`indentStackDepth, indentStack
      ensures Valid() && I() == Indents.Push(old(I()), newIndent)
      ensures V() == old(V()).(indent := indent)
    {
      if indentStackDepth < MAX_INDENT_STACK_DEPTH {
        indentStack[indentStackDepth] := indent;
        indent := newIndent;
      }
      indentStackDepth := indentStackDepth + 1;
    }

    method PushIndent()
      requires Valid()
      modifies this`indent, this`indentStackDepth, indentStack
      ensures Valid() && I() == Indents.Push(old(I()), column)
      ensures V() == old(V()).(indent := indent)
    {
      PushIndentInternal(column);
    }

    method PushIndentBy(delta: int)
      requires Valid()
      modifies this`indent, this`indentStackDepth, indentStack
      ensures Valid() && I() == Indents.Push(old(I()), old(indent) + delta)
      ensures V() == old(V()).(indent := indent)
    {
      PushIndentInternal(indent + delta);
    }

    method PopIndent()
      requires Valid()
      modifies this`indent, this`indentStackDepth
      ensures Valid() && I() == Indents.Pop(old(I()))
      ensures V() == old(V()).(indent := indent)
    {
      if indentStackDepth > 0 {
        indentStackDepth := indentStackDepth - 1;
        if indentStackDepth < MAX_INDENT_STACK_DEPTH {
          indent := indentStack[indentStackDepth];
        }
      }
    }
  }

  // ----- the rendering line by line -----

  function LineText(prefix: string, indent: int, line: string): string {
    var continued := line != "" && line[0] == '\t';
    Header(prefix, continued) + Spaces(indent) + if continued then line[1..] else line
  }

  function Lines(lines: seq<string>): string {
    if lines == [] then "" else Lines(lines[..|lines| - 1]) + (lines[|lines| - 1] + "\n")
  }

  function LinesText(prefix: string, indent: int, lines: seq<string>): string {
    if lines == [] then ""
    else LinesText(prefix, indent, lines[..|lines| - 1]) + (LineText(prefix, indent, lines[|lines| - 1]) + "\n")
  }

  /** Text inside a line is written as it is. */
  lemma {:induction false} TypeInsideLine(v: View, text: string)
    requires !v.bol && '\n' !in text
    ensures !Type(v, text).bol && Type(v, text).written == v.written + Tag(v.printer, text)
    ensures var w := Type(v, text); w.prefix == v.prefix && w.printer == v.printer && w.indent == v.indent
  {
    if text == "" {
    } else {
      var n := |text| - 1;
      TypeInsideLine(v, text[..n]);
      TagAppend(v.printer, text[..n], [text[n]]);
      assert text[..n] + [text[n]] == text;
    }
  }

  lemma TypeOne(v: View, c: char)
    ensures Type(v, [c]) == TypeChar(v, c)
  {
    assert [c][..0] == "";
  }

  lemma LineTextOf(prefix: string, indent: int, line: string)
    ensures line == "" ==> RenderChar(prefix, indent, true, '\n') == LineText(prefix, indent, line) + "\n"
    ensures line != "" ==> RenderChar(prefix, indent, true, line[0]) + line[1..] == LineText(prefix, indent, line)
  {
    hide Spaces;
    var continued := line != "" && line[0] == '\t';
    var head := Header(prefix, continued) + Spaces(indent);
    if continued {
      assert head + "" + line[1..] == head + line[1..];
    } else if line != "" {
      assert head + [line[0]] + line[1..] == head + line;
    } else {
      assert head + "" + "\n" == head + "\n";
    }
  }

  /** A whole line comes out as its header, the indent and its text less a leading tab. */
  lemma TypeLine(v: View, line: string)
    requires v.bol && v.column == 0 && '\n' !in line
    ensures Type(v, line + "\n") ==
      v.(written := v.written + Tag(v.printer, LineText(v.prefix, v.indent, line) + "\n"))
  {
    hide Tag, LineText, Type;
    LineTextOf(v.prefix, v.indent, line);
    TypeAppend(v, line, "\n");
    TypeOne(Type(v, line), '\n');
    if line == "" {
      assert Type(v, "") == v by {
        TypeNothing(v);
      }
      assert TypeChar(v, '\n').column == 0;
    } else {
      var c, body := line[0], line[1..];
      var text := RenderChar(v.prefix, v.indent, true, c);
      assert line == [c] + body;
      TypeAppend(v, [c], body);
      TypeOne(v, c);
      TypeInsideLine(TypeChar(v, c), body);
      TagAppend(v.printer, text, body);
      TagAppend(v.printer, text + body, "\n");
      assert RenderChar(v.prefix, v.indent, false, '\n') == "\n";
      assert Type(v, line).written == v.written + Tag(v.printer, text + body);
    }
  }

  /** A line, character by character: the prefix and a colon, or blanks in their place before a tab;
      blanks for the indent; and the text, less that tab. */
  lemma LineTextIs(prefix: string, indent: int, line: string)
    ensures var text, blanks := LineText(prefix, indent, line), if indent > 0 then indent else 0;
      if line != "" && line[0] == '\t' then
        var n := (if prefix == "" then 0 else |prefix| + 2) + blanks;
        |text| == n + |line| - 1 && (forall i | 0 <= i < n :: text[i] == ' ') && text[n..] == line[1..]
      else
        var head := if prefix == "" then "" else prefix + ": ";
        var n := |head| + blanks;
        && |text| == n + |line| && text[..|head|] == head
        && (forall i | |head| <= i < n :: text[i] == ' ') && text[n..] == line
  {
    hide Spaces;
    BlanksAre(indent);
    BlanksAre(|prefix| + 2);
  }

  lemma TwoMoreBlanks(n: nat)
    ensures Spaces(n + 2) == Spaces(n) + "  "
  {
  }

  lemma BlanksAre(n: int)
    ensures forall i | 0 <= i < |Spaces(n)| :: Spaces(n)[i] == ' '
  {
  }

  /** A whole line as it is written, spelt out. */
  lemma LineWritten(v: View, line: string)
    requires v.bol && v.column == 0 && '\n' !in line
    ensures var u, blanks := Type(v, line + "\n"), Spaces(v.indent);
      if line != "" && line[0] == '\t' then
        if v.prefix == "" then u.written == v.written + Tag(v.printer, blanks + line[1..] + "\n")
        else u.written == v.written + Tag(v.printer, Spaces(|v.prefix| + 2) + blanks + line[1..] + "\n")
      else
        if v.prefix == "" then u.written == v.written + Tag(v.printer, blanks + line + "\n")
        else u.written == v.written + Tag(v.printer, v.prefix + ": " + blanks + line + "\n")
  {
    hide Tag, Type, Spaces;
    TypeLine(v, line);
    assert "" + Spaces(v.indent) == Spaces(v.indent);
  }

  lemma TypeNothing(v: View)
    ensures Type(v, "") == v
  {
  }

  /** The rendering of any lines, each closed by a newline: the character machine against the
      line-by-line definition. */
  lemma {:induction false} TypeLines(v: View, lines: seq<string>)
    requires v.bol && v.column == 0 && forall i | 0 <= i < |lines| :: '\n' !in lines[i]
    ensures Type(v, Lines(lines)) == v.(written := v.written + Tag(v.printer, LinesText(v.prefix, v.indent, lines)))
  {
    hide Tag, LineText, TypeChar, Type;
    if lines == [] {
      TypeNothing(v);
      TagAppend(v.printer, "", "");
    } else {
      var n := |lines| - 1;
      TypeLines(v, lines[..n]);
      TypeAppend(v, Lines(lines[..n]), lines[n] + "\n");
      TypeLine(Type(v, Lines(lines[..n])), lines[n]);
      TagAppend(v.printer, LinesText(v.prefix, v.indent, lines[..n]), LineText(v.prefix, v.indent, lines[n]) + "\n");
    }
  }

  // ----- whole runs -----

  datatype Op = CharOp(c: char) | StrOp(str: string) | FlushOp | PrinterOp(p: LogPrinter?)

  function RunOps(v: View, enabled: bool, ops: seq<Op>): View {
    if ops == [] then v
    else
      var u := RunOps(v, enabled, ops[..|ops| - 1]);
      match ops[|ops| - 1]
      case CharOp(c) => if enabled then TypeChar(u, c) else u
      case StrOp(str) => Typed(enabled, u, str)
      case FlushOp => u
      case PrinterOp(p) => u.(printer := p)
  }

  /** What was sent to one printer from chunk `from` on. */
  function SentTo(chunks: Chunks, from: nat, q: LogPrinter): seq<string> {
    if |chunks| <= from then []
    else
      var n := |chunks| - 1;
      SentTo(chunks[..n], from, q) + if chunks[n].0 == q then [chunks[n].1] else []
  }

  lemma {:induction false} SentMore(was: Chunks, now: Chunks, from: nat, p: LogPrinter?,
                                    before: seq<string>, after: seq<string>, q: LogPrinter)
    requires from <= |was| && was <= now && Extends(|was|, now, p, before, after)
    ensures if q == p then SentTo(was, from, q) + after[|before|..] == SentTo(now, from, q)
            else SentTo(now, from, q) == SentTo(was, from, q)
    decreases |now|
  {
    if |was| == |now| {
      assert was == now && now[|was|..] == [];
    } else {
      var n := |now| - 1;
      var some := Texts(now[|was|..n]);
      assert now[..n][|was|..] == now[|was|..n];
      assert Texts(now[|was|..]) == some + [now[n].1];
      SentMore(was, now[..n], from, p, before, before + if p == null then [] else some, q);
    }
  }

  /** A printer holds what it did at first and what was sent to it since. */
  ghost predicate Received(log: Log, q: LogPrinter, first: seq<string>, from: nat)
    reads log, q
  {
    from <= |log.sent| && q.chunks == first + SentTo(log.sent, from, q)
  }

  lemma ReceivedMore(was: Chunks, now: Chunks, from: nat, p: LogPrinter?, before: seq<string>, after: seq<string>,
                     q: LogPrinter, first: seq<string>, held: seq<string>, holds: seq<string>)
    requires from <= |was| <= |now| && was <= now && Extends(|was|, now, p, before, after)
    requires held == first + SentTo(was, from, q)
    requires if q == p then held == before && holds == after else holds == held
    ensures holds == first + SentTo(now, from, q)
  {
    hide SentTo;
    SentMore(was, now, from, p, before, after, q);
    Grew(was, now, p, before, after);
    hide Extends;
  }

  /** One call of the run. */
  method Apply(log: Log, op: Op)
    requires log.Valid()
    modifies log`bufferSize, log`sent, log`column, log`written, log`bol, log`printer, log.buffer, log.printer
    ensures log.Valid() && log.V() == RunOps(old(log.V()), log.enabled, [op])
    ensures old(log.sent) <= log.sent
    ensures Extends(|old(log.sent)|, log.sent, old(log.printer), old(Printed(log.printer)), Printed(old(log.printer)))
  {
    hide TypeChar, Type, Extends;
    assert [op][..0] == [];
    match op {
      case CharOp(c) => log.C(c);
      case StrOp(str) => log.S(str);
      case FlushOp => log.Flush();
      case PrinterOp(p) => log.SetLogPrinter(p);
    }
  }

  lemma RunOpsNext(v: View, enabled: bool, ops: seq<Op>, op: Op)
    ensures RunOps(v, enabled, ops + [op]) == RunOps(RunOps(v, enabled, ops), enabled, [op])
    ensures var u := RunOps(v, enabled, [op]); u.printer == if op.PrinterOp? then op.p else v.printer
  {
    hide Type, TypeChar;
    assert (ops + [op])[..|ops|] == ops && [op][..0] == [];
    if op.StrOp? {
      TypeKeeps(v, op.str);
    } else if op.CharOp? {
      TypeOne(v, op.c);
      TypeKeeps(v, [op.c]);
    }
  }

  /** The printers of a run. */
  ghost function Printers(first: LogPrinter?, ops: seq<Op>): (s: set<LogPrinter>) {
    set op | op in ops + [PrinterOp(first)] && op.PrinterOp? && op.p != null :: op.p
  }

  /** Any run of calls: flushing never shows in what is written, each character carries the printer
      installed when it was written, and (by `Valid`) the chunks sent and the buffer hold exactly
      those characters, in order. Every printer of the run received exactly the chunks sent to it. */
  method Replay(log: Log, ops: seq<Op>)
    requires log.Valid()
    modifies log`bufferSize, log`sent, log`column, log`written, log`bol, log`printer, log.buffer
    modifies Printers(log.printer, ops)
    ensures log.Valid() && log.V() == RunOps(old(log.V()), log.enabled, ops)
    ensures forall q | q in Printers(old(log.printer), ops) :: Received(log, q, old(q.chunks), |old(log.sent)|)
  {
    hide TypeChar, Type, Extends, SentTo, RunOps, Log.Valid;
    ghost var printers, from := Printers(log.printer, ops), |log.sent|;
    NothingYet(log.V(), log.enabled, log.sent);
    for i := 0 to |ops|
      invariant log.Valid() && log.V() == RunOps(old(log.V()), log.enabled, ops[..i])
      invariant log.printer == null || log.printer in printers
      invariant forall q | q in printers :: Received(log, q, old(q.chunks), from)
    {
      RunOpsNext(old(log.V()), log.enabled, ops[..i], ops[i]);
      RunOpsNext(log.V(), log.enabled, [], ops[i]);
      assert ops[..i + 1] == ops[..i] + [ops[i]];
      ghost var was, p, before := log.sent, log.printer, Printed(log.printer);
      label step:
      Apply(log, ops[i]);
      forall q | q in printers
        ensures Received(log, q, old(q.chunks), from)
      {
        ReceivedMore(was, log.sent, from, p, before, Printed(p), q, old(q.chunks), old@step(q.chunks), q.chunks);
      }
    }
    assert ops[..|ops|] == ops;
  }

  lemma NothingYet(v: View, enabled: bool, chunks: Chunks)
    ensures RunOps(v, enabled, []) == v && forall q :: SentTo(chunks, |chunks|, q) == []
  {
  }

  lemma Grew(was: Chunks, now: Chunks, p: LogPrinter?, before: seq<string>, after: seq<string>)
    requires was <= now && Extends(|was|, now, p, before, after)
    ensures before <= after && after == before + after[|before|..]
  {
  }
}
