/** src/log.cpp: `LogDumpBytesEx`, and a reader for what it writes. */
module Dump {
  import Hex
  import opened Log
  import opened Options

  const MAX_NUM_DUMP_COLUMNS: nat := 32
  const TWO64: nat := 0x1_0000_0000_0000_0000

  type Octet = x: nat | x < 256

  /** `highlight` says which offsets the highlight function picks, if there is one. */
  datatype DumpData = DumpData(numDumpColumns: nat, highlight: Option<nat -> bool>, firstAddress: nat)

  const DEFAULT_DUMP_DATA: DumpData := DumpData(16, None, 0)

  // ----- what is written -----

  function Columns(d: DumpData): (n: nat)
    ensures 0 < n <= MAX_NUM_DUMP_COLUMNS
  {
    if d.numDumpColumns == 0 then DEFAULT_DUMP_DATA.numDumpColumns
    else if d.numDumpColumns > MAX_NUM_DUMP_COLUMNS then MAX_NUM_DUMP_COLUMNS
    else d.numDumpColumns
  }

  /** The width of the first address to the next byte above four. */
  function OffsetWidth(firstAddress: nat): nat {
    if firstAddress / 0x100_0000_0000_0000 % 256 != 0 then 16
    else if firstAddress / 0x1_0000_0000_0000 % 256 != 0 then 14
    else if firstAddress / 0x100_0000_0000 % 256 != 0 then 12
    else if firstAddress / 0x1_0000_0000 % 256 != 0 then 10
    else 8
  }

  function Separator(d: DumpData, offset: nat): char {
    if d.highlight.Some? && d.highlight.value(offset) then '*' else ' '
  }

  function Cell(p: seq<Octet>, offset: nat): (c: string)
    ensures |c| == 2
  {
    if offset < |p| then [Hex.Digit(p[offset] / 16, true), Hex.Digit(p[offset] % 16, true)] else "  "
  }

  /** `n` cells from `offset` on, each with its separator. */
  function Cells(p: seq<Octet>, d: DumpData, offset: nat, n: nat): (s: string)
    ensures |s| == 3 * n
    decreases n
  {
    if n == 0 then "" else Cell(p, offset) + [Separator(d, offset)] + Cells(p, d, offset + 1, n - 1)
  }

  function Shown(p: seq<Octet>, offset: nat): char {
    if offset >= |p| then ' ' else if 32 <= p[offset] <= 126 then p[offset] as char else '.'
  }

  function Address(d: DumpData, offset: nat): nat {
    (d.firstAddress + offset) % TWO64
  }

  function RowStart(d: DumpData, offset: nat): string {
    "0x" + Hex.Padded(Address(d, offset), OffsetWidth(d.firstAddress)) + ": "
  }

  function Text(p: seq<Octet>, offset: nat, n: nat): string {
    seq(n, i requires i >= 0 => Shown(p, offset + i))
  }

  /** A row, without its newline. */
  function Row(p: seq<Octet>, d: DumpData, offset: nat): string {
    RowStart(d, offset) + Cells(p, d, offset, Columns(d)) + " " + Text(p, offset, Columns(d))
  }

  function Rows(p: seq<Octet>, d: DumpData, offset: nat): string
    decreases if offset < |p| then |p| - offset else 0
  {
    if offset >= |p| then "" else Row(p, d, offset) + "\n" + Rows(p, d, offset + Columns(d))
  }

  function DumpText(p: seq<Octet>, d: DumpData): string {
    if p == [] then "<<no data>>\n" else Rows(p, d, 0)
  }

  // ----- how it is read back -----

  datatype Line = Line(address: nat, bytes: seq<nat>)

  /** The bytes of up to `n` cells, as far as they are not blank. */
  function ReadCells(t: string, n: nat): seq<nat> {
    if n == 0 || |t| < 3 || !Hex.IsDigit(t[0]) || !Hex.IsDigit(t[1]) then []
    else [16 * Hex.Value(t[0]) + Hex.Value(t[1])] + ReadCells(t[3..], n - 1)
  }

  function ReadRow(t: string, columns: nat): Option<Line> {
    if |t| < 2 || t[..2] != "0x" then None
    else
      var n := Hex.Run(t[2..]);
      if n == 0 || |t| < 4 + n || t[2 + n..4 + n] != ": " then None
      else Some(Line(Hex.Number(t[2..2 + n]), ReadCells(t[4 + n..], columns)))
  }

  function LineLength(t: string): (n: nat)
    ensures n <= |t|
  {
    if t == "" || t[0] == '\n' then 0 else 1 + LineLength(t[1..])
  }

  function ReadRows(t: string, columns: nat): Option<seq<Line>>
    decreases |t|
  {
    if t == "" then Some([])
    else
      var n := LineLength(t);
      if n == |t| then None
      else match (ReadRow(t[..n], columns), ReadRows(t[n + 1..], columns))
        case (Some(line), Some(rest)) => Some([line] + rest)
        case (_, _) => None
  }

  // ----- the two together -----

  function Min(a: int, b: int): int {
    if a < b then a else b
  }

  function Slice(p: seq<Octet>, offset: nat, n: nat): seq<nat> {
    if offset >= |p| then [] else p[offset..Min(offset + n, |p|)]
  }

  /** The rows a dump has to show from `offset` on: consecutive slices and their addresses. */
  function Slices(p: seq<Octet>, d: DumpData, offset: nat): seq<Line>
    decreases if offset < |p| then |p| - offset else 0
  {
    if offset >= |p| then []
    else [Line(Address(d, offset), Slice(p, offset, Columns(d)))] + Slices(p, d, offset + Columns(d))
  }

  lemma OneCell(p: seq<Octet>, offset: nat, separator: char, rest: string, n: nat)
    requires n > 0
    ensures var t := Cell(p, offset) + [separator] + rest;
      ReadCells(t, n) == if offset < |p| then [p[offset]] + ReadCells(rest, n - 1) else []
  {
    var t := Cell(p, offset) + [separator] + rest;
    assert t[3..] == rest;
    if offset < |p| {
      Hex.DigitValue(p[offset] / 16, true);
      Hex.DigitValue(p[offset] % 16, true);
    }
  }

  lemma SliceStep(p: seq<Octet>, offset: nat, n: nat)
    ensures Slice(p, offset, 0) == []
    ensures n > 0 ==> Slice(p, offset, n) == if offset < |p| then [p[offset]] + Slice(p, offset + 1, n - 1) else []
  {
  }

  lemma {:induction false} CellsReadBack(p: seq<Octet>, d: DumpData, offset: nat, n: nat, rest: string)
    ensures ReadCells(Cells(p, d, offset, n) + rest, n) == Slice(p, offset, n)
    decreases n
  {
    hide ReadCells, Cells, Cell, Separator, Slice;
    SliceStep(p, offset, n);
    if n == 0 {
      NoCells(p, d, offset, rest);
    } else {
      var more := Cells(p, d, offset + 1, n - 1) + rest;
      var separator := Separator(d, offset);
      CellsCons(p, d, offset, n);
      assert Cells(p, d, offset, n) + rest == Cell(p, offset) + [separator] + more;
      OneCell(p, offset, separator, more, n);
      CellsReadBack(p, d, offset + 1, n - 1, rest);
    }
  }

  lemma NoCells(p: seq<Octet>, d: DumpData, offset: nat, rest: string)
    ensures ReadCells(Cells(p, d, offset, 0) + rest, 0) == []
  {
  }

  lemma CellsCons(p: seq<Octet>, d: DumpData, offset: nat, n: nat)
    requires n > 0
    ensures Cells(p, d, offset, n) == Cell(p, offset) + [Separator(d, offset)] + Cells(p, d, offset + 1, n - 1)
  {
  }

  lemma HeadTail(head: string, tail: string, t: string)
    requires t == head + tail
    ensures t[|head|..] == tail
  {
  }

  lemma ReadRowParts(digits: string, cells: string, columns: nat)
    requires digits != "" && forall i | 0 <= i < |digits| :: Hex.IsDigit(digits[i])
    ensures ReadRow("0x" + digits + ": " + cells, columns) == Some(Line(Hex.Number(digits), ReadCells(cells, columns)))
  {
    hide Hex.Number, ReadCells, Hex.Run;
    var t := "0x" + digits + ": " + cells;
    HeadTail("0x", digits + (": " + cells), t);
    Hex.RunOf(digits, ": " + cells);
    var n := |digits|;
    HeadTail("0x" + digits, ": " + cells, t);
    HeadTail("0x" + digits + ": ", cells, t);
    assert t[2..2 + n] == digits && t[2 + n..4 + n] == ": ";
  }

  lemma RowReadsBack(p: seq<Octet>, d: DumpData, offset: nat)
    ensures ReadRow(Row(p, d, offset), Columns(d)) == Some(Line(Address(d, offset), Slice(p, offset, Columns(d))))
  {
    hide Hex.Padded, Hex.Number, Address, OffsetWidth, Columns, Cells, ReadCells, ReadRow;
    var digits := Hex.Padded(Address(d, offset), OffsetWidth(d.firstAddress));
    var rest := " " + Text(p, offset, Columns(d));
    var cells := Cells(p, d, offset, Columns(d)) + rest;
    assert Row(p, d, offset) == "0x" + digits + ": " + cells;
    ReadRowParts(digits, cells, Columns(d));
    Hex.PaddedValue(Address(d, offset), OffsetWidth(d.firstAddress));
    CellsReadBack(p, d, offset, Columns(d), rest);
  }

  lemma {:induction false} CellsHaveNoNewline(p: seq<Octet>, d: DumpData, offset: nat, n: nat)
    ensures '\n' !in Cells(p, d, offset, n)
    decreases n
  {
    if n > 0 {
      CellsHaveNoNewline(p, d, offset + 1, n - 1);
      assert '\n' !in Cell(p, offset);
    }
  }

  lemma ShownIsPrintable(p: seq<Octet>, offset: nat)
    ensures 32 <= Shown(p, offset) as int <= 126
  {
  }

  lemma RowHasNoNewline(p: seq<Octet>, d: DumpData, offset: nat)
    ensures '\n' !in Row(p, d, offset)
  {
    hide Hex.Padded, Cells, Columns;
    CellsHaveNoNewline(p, d, offset, Columns(d));
    forall i | 0 <= i < Columns(d)
      ensures Text(p, offset, Columns(d))[i] != '\n'
    {
      ShownIsPrintable(p, offset + i);
    }
  }

  lemma LineLengthOf(line: string, rest: string)
    requires '\n' !in line
    ensures LineLength(line + "\n" + rest) == |line|
  {
    if line != "" {
      assert (line + "\n" + rest)[1..] == line[1..] + "\n" + rest;
    }
  }

  /** Reading the dump gives back the slices and their addresses, row by row. */
  lemma {:induction false} RowsReadBack(p: seq<Octet>, d: DumpData, offset: nat)
    ensures ReadRows(Rows(p, d, offset), Columns(d)) == Some(Slices(p, d, offset))
    decreases if offset < |p| then |p| - offset else 0
  {
    hide Row, ReadRow, Address, LineLength, Slice, ReadRows;
    NoRows(Columns(d));
    if offset < |p| {
      var row, rest := Row(p, d, offset), Rows(p, d, offset + Columns(d));
      RowHasNoNewline(p, d, offset);
      RowReadsBack(p, d, offset);
      RowsReadBack(p, d, offset + Columns(d));
      ReadRowsCons(row, rest, Columns(d));
    }
  }

  lemma NoRows(columns: nat)
    ensures ReadRows("", columns) == Some([])
  {
  }

  lemma ReadRowsCons(row: string, rest: string, columns: nat)
    requires '\n' !in row && ReadRow(row, columns).Some? && ReadRows(rest, columns).Some?
    ensures ReadRows(row + "\n" + rest, columns) ==
      Some([ReadRow(row, columns).value] + ReadRows(rest, columns).value)
  {
    hide ReadRow, LineLength;
    var t := row + "\n" + rest;
    LineLengthOf(row, rest);
    assert t[..|row|] == row && t[|row| + 1..] == rest;
  }

  function Bytes(lines: seq<Line>): seq<nat> {
    if lines == [] then [] else lines[0].bytes + Bytes(lines[1..])
  }

  lemma {:induction false} SlicesJoin(p: seq<Octet>, d: DumpData, offset: nat)
    ensures Bytes(Slices(p, d, offset)) == if offset < |p| then p[offset..] else []
    decreases if offset < |p| then |p| - offset else 0
  {
    if offset < |p| {
      hide Columns, Address;
      SlicesJoin(p, d, offset + Columns(d));
    }
  }

  lemma Multiples(m: nat, c: nat)
    ensures (m + 1) * c == m * c + c && m * c == (m - 1) * c + c
  {
  }

  /** As many rows as it takes, and no more. */
  lemma {:induction false} SlicesCount(p: seq<Octet>, d: DumpData, offset: nat)
    ensures var n := |Slices(p, d, offset)|;
      offset < |p| ==> offset + (n - 1) * Columns(d) < |p| <= offset + n * Columns(d)
    decreases if offset < |p| then |p| - offset else 0
  {
    if offset < |p| {
      hide Address, Slice, Columns;
      SlicesCount(p, d, offset + Columns(d));
      var m := |Slices(p, d, offset + Columns(d))|;
      Multiples(m, Columns(d));
    }
  }

  lemma {:induction false} SlicesAddresses(p: seq<Octet>, d: DumpData, offset: nat, k: nat)
    requires k < |Slices(p, d, offset)|
    ensures Slices(p, d, offset)[k].address == Address(d, offset + k * Columns(d))
    decreases k
  {
    if k > 0 {
      hide Address, Slice;
      SlicesAddresses(p, d, offset + Columns(d), k - 1);
      assert k * Columns(d) == (k - 1) * Columns(d) + Columns(d);
    }
  }

  lemma {:induction false} SlicesLengths(p: seq<Octet>, d: DumpData, offset: nat, k: nat)
    requires k < |Slices(p, d, offset)| - 1
    ensures |Slices(p, d, offset)[k].bytes| == Columns(d)
    decreases k
  {
    hide Address, Columns;
    if k > 0 {
      SlicesLengths(p, d, offset + Columns(d), k - 1);
    }
  }

  lemma ColumnsAre(d: DumpData)
    ensures Columns(d) == if d.numDumpColumns == 0 then 16 else if d.numDumpColumns > 32 then 32 else d.numDumpColumns
  {
  }

  /** The dump of any bytes, under any settings, can be read back. With n columns set (16 for none set,
      32 at most) there are ceil(size / n) rows; row k is at the first address plus k * n modulo 2^64;
      every row but the last has n bytes; and the bytes of the rows together are the input. */
  lemma DumpReadsBack(p: seq<Octet>, d: DumpData, n: nat) returns (lines: seq<Line>)
    requires p != []
    requires n == if d.numDumpColumns == 0 then 16 else if d.numDumpColumns > 32 then 32 else d.numDumpColumns
    ensures ReadRows(DumpText(p, d), n) == Some(lines)
    ensures Bytes(lines) == p
    ensures lines != [] && (|lines| - 1) * n < |p| <= |lines| * n
    ensures forall k: nat | k < |lines| :: lines[k].address == (d.firstAddress + k * n) % TWO64
    ensures forall k: nat | k < |lines| - 1 :: |lines[k].bytes| == n
  {
    hide Columns, ReadRows, Rows, Slices;
    ColumnsAre(d);
    lines := Slices(p, d, 0);
    RowsReadBack(p, d, 0);
    SlicesJoin(p, d, 0);
    SlicesCount(p, d, 0);
    forall k: nat | k < |lines|
      ensures lines[k].address == (d.firstAddress + k * n) % TWO64
    {
      SlicesAddresses(p, d, 0, k);
    }
    forall k: nat | k < |lines| - 1
      ensures |lines[k].bytes| == n
    {
      SlicesLengths(p, d, 0, k);
    }
  }

  // ----- a row, character by character -----

  lemma {:induction false} CellsAt(p: seq<Octet>, d: DumpData, offset: nat, n: nat, i: nat)
    requires i < n
    ensures var cells, cell := Cells(p, d, offset, n), Cell(p, offset + i);
      cells[3 * i] == cell[0] && cells[3 * i + 1] == cell[1] && cells[3 * i + 2] == Separator(d, offset + i)
    decreases n
  {
    hide Cell, Separator, Cells;
    CellsCons(p, d, offset, n);
    var first, rest := Cell(p, offset) + [Separator(d, offset)], Cells(p, d, offset + 1, n - 1);
    if i > 0 {
      CellsAt(p, d, offset + 1, n - 1, i - 1);
      Shifted(first, rest, 3 * i);
      Shifted(first, rest, 3 * i + 1);
      Shifted(first, rest, 3 * i + 2);
    }
  }

  lemma Shifted(first: string, rest: string, j: nat)
    requires |first| <= j < |first| + |rest|
    ensures (first + rest)[j] == rest[j - |first|]
  {
  }

  /** Column `i` of a row: two upper-case digits or two blanks, then a star if the offset is highlighted,
      a blank if not; and the byte itself or a dot or a blank in the text at the end. */
  lemma ColumnIs(p: seq<Octet>, d: DumpData, offset: nat, i: nat, row: string, q: nat)
    requires i < Columns(d) && row == Row(p, d, offset) && q == |RowStart(d, offset)|
    ensures |row| == q + 4 * Columns(d) + 1 && row[q + 3 * Columns(d)] == ' '
    ensures offset + i < |p| ==> row[q + 3 * i] == Hex.Digit(p[offset + i] / 16, true)
    ensures offset + i < |p| ==> row[q + 3 * i + 1] == Hex.Digit(p[offset + i] % 16, true)
    ensures offset + i >= |p| ==> row[q + 3 * i] == row[q + 3 * i + 1] == ' '
    ensures row[q + 3 * i + 2] == if d.highlight.Some? && d.highlight.value(offset + i) then '*' else ' '
    ensures row[q + 3 * Columns(d) + 1 + i] ==
      if offset + i >= |p| then ' '
      else if p[offset + i] < 32 || p[offset + i] > 126 then '.' else p[offset + i] as char
  {
    hide Columns, RowStart, Cells, Cell, Shown, Row, Text, Separator, Hex.Digit;
    SeparatorIs(d, offset + i);
    CellsAt(p, d, offset, Columns(d), i);
    CellDigits(p, offset + i);
    ShownIs(p, offset + i);
    RowParts(p, d, offset);
    TextAt(p, offset, Columns(d), i);
    var cells, text := Cells(p, d, offset, Columns(d)), Text(p, offset, Columns(d));
    InCells(row, RowStart(d, offset), cells, text, 3 * i);
    InCells(row, RowStart(d, offset), cells, text, 3 * i + 1);
    InCells(row, RowStart(d, offset), cells, text, 3 * i + 2);
    InText(row, RowStart(d, offset), cells, text, i);
  }

  lemma SeparatorIs(d: DumpData, x: nat)
    ensures Separator(d, x) == if d.highlight.Some? && d.highlight.value(x) then '*' else ' '
  {
  }

  lemma InCells(row: string, start: string, cells: string, text: string, j: nat)
    requires row == start + cells + " " + text && j < |cells|
    ensures |start| + j < |row| && row[|start| + j] == cells[j]
  {
  }

  lemma InText(row: string, start: string, cells: string, text: string, i: nat)
    requires row == start + cells + " " + text && i < |text|
    ensures |row| == |start| + |cells| + 1 + |text|
    ensures row[|start| + |cells|] == ' ' && row[|start| + |cells| + 1 + i] == text[i]
  {
  }

  lemma TextAt(p: seq<Octet>, offset: nat, n: nat, i: nat)
    requires i < n
    ensures |Text(p, offset, n)| == n && Text(p, offset, n)[i] == Shown(p, offset + i)
  {
  }

  lemma CellDigits(p: seq<Octet>, x: nat)
    ensures x < |p| ==> Cell(p, x)[0] == Hex.Digit(p[x] / 16, true) && Cell(p, x)[1] == Hex.Digit(p[x] % 16, true)
    ensures x >= |p| ==> Cell(p, x) == "  "
  {
  }

  lemma ShownIs(p: seq<Octet>, x: nat)
    ensures Shown(p, x) == if x >= |p| then ' ' else if p[x] < 32 || p[x] > 126 then '.' else p[x] as char
  {
  }

  /** The head of a row: the address in upper-case digits, as many as the whole bytes of the first
      address, but no less than eight. */
  lemma HeadIs(d: DumpData, offset: nat)
    requires d.firstAddress < TWO64
    ensures var w := OffsetWidth(d.firstAddress);
      && w % 2 == 0 && 8 <= w <= 16 && d.firstAddress < Hex.Pow16(w)
      && (w > 8 ==> Hex.Pow16(w - 2) <= d.firstAddress)
      && RowStart(d, offset) == "0x" + Hex.Padded((d.firstAddress + offset) % TWO64, w) + ": "
  {
    hide Hex.Padded, Hex.Pow16, RowStart;
    RowParts([], d, offset);
    PowersOf16();
    WidthIs(d.firstAddress);
  }

  lemma WidthIs(a: nat)
    requires a < TWO64
    ensures OffsetWidth(a) ==
      if a < 0x1_0000_0000 then 8
      else if a < 0x100_0000_0000 then 10
      else if a < 0x1_0000_0000_0000 then 12
      else if a < 0x100_0000_0000_0000 then 14 else 16
  {
  }

  lemma PowersOf16()
    ensures Hex.Pow16(8) == 0x1_0000_0000 && Hex.Pow16(10) == 0x100_0000_0000
    ensures Hex.Pow16(12) == 0x1_0000_0000_0000 && Hex.Pow16(14) == 0x100_0000_0000_0000 && Hex.Pow16(16) == TWO64
  {
    assert Hex.Pow16(8) == 16 * Hex.Pow16(7);
    assert Hex.Pow16(4) == 0x1_0000;
  }

  // ----- the code -----

  lemma RowsCons(p: seq<Octet>, d: DumpData, offset: nat)
    ensures offset < |p| ==> Rows(p, d, offset) == Row(p, d, offset) + "\n" + Rows(p, d, offset + Columns(d))
    ensures offset >= |p| ==> Rows(p, d, offset) == ""
  {
    hide Row, Columns;
  }

  lemma CellIs(p: seq<Octet>, offset: nat)
    ensures Cell(p, offset) ==
      if offset < |p| then [Hex.Digit(p[offset] / 16, true), Hex.Digit(p[offset] % 16, true)] else "  "
  {
  }

  lemma CellsNone(p: seq<Octet>, d: DumpData, offset: nat)
    ensures Cells(p, d, offset, 0) == ""
  {
  }

  /** The character column of a row. */
  method CharacterText(p: seq<Octet>, offset: nat, columns: nat) returns (cs: string)
    ensures cs == Text(p, offset, columns)
  {
    cs := "";
    for i := 0 to columns
      invariant cs == Text(p, offset, i)
    {
      assert Text(p, offset, i + 1) == Text(p, offset, i) + [Shown(p, offset + i)];
      if offset + i < |p| {
        var c := p[offset + i] as char;
        if c >= 32 as char && c <= 126 as char {
          cs := cs + [c];
        } else {
          cs := cs + ['.'];
        }
      } else {
        cs := cs + [' '];
      }
    }
  }

  /** The hexadecimal columns of a row. */
  method WriteCells(log: Log, p: seq<Octet>, d: DumpData, offset: nat, columns: nat)
    requires log.Valid()
    modifies log, log.buffer, log.printer
    ensures log.Valid() && log.enabled == old(log.enabled) && log.Delivered()
    ensures log.V() == Typed(log.enabled, old(log.V()), Cells(p, d, offset, columns))
  {
    hide Typed, Log.Valid, Log.V, Log.From, Cells, Cell, Separator, Splits;
    ghost var v, all := log.V(), Cells(p, d, offset, columns);
    ghost var done := "";
    SplitsEnds(all, done);
    TypedAppend(log.enabled, v, "", "");
    log.NothingSent();
    for i := 0 to columns
      invariant log.Valid() && log.enabled == old(log.enabled) && log.Delivered()
      invariant Splits(all, done, Cells(p, d, offset + i, columns - i))
      invariant log.V() == Typed(log.enabled, v, done)
    {
      ghost var cell := Cell(p, offset + i) + [Separator(d, offset + i)];
      ghost var more := Cells(p, d, offset + i + 1, columns - i - 1);
      CellsCons(p, d, offset + i, columns - i);
      WriteCell(log, p, d, offset + i);
      TypedAppend(log.enabled, v, done, cell);
      SplitsNext(all, done, cell, more);
      done := done + cell;
    }
    CellsNone(p, d, offset + columns);
    SplitsEnds(all, done);
  }

  method WriteCell(log: Log, p: seq<Octet>, d: DumpData, offset: nat)
    requires log.Valid()
    modifies log, log.buffer, log.printer
    ensures log.Valid() && log.enabled == old(log.enabled) && log.Delivered()
    ensures log.V() == Typed(log.enabled, old(log.V()), Cell(p, offset) + [Separator(d, offset)])
  {
    hide Typed, Log.Stored, Log.From, Cell;
    ghost var v := log.V();
    CellIs(p, offset);
    if offset < |p| {
      log.S([Hex.Digit(p[offset] / 16, true), Hex.Digit(p[offset] % 16, true)]);
    } else {
      log.S("  ");
    }
    var sep := ' ';
    if d.highlight.Some? {
      if d.highlight.value(offset) {
        sep := '*';
      }
    }
    TypedAppend(log.enabled, v, Cell(p, offset), [sep]);
    log.S([sep]);
  }

  method LogDumpBytesEx(log: Log, p: seq<Octet>, data: Option<DumpData>)
    requires log.Valid()
    modifies log, log.buffer, log.printer
    ensures log.Valid() && log.enabled == old(log.enabled) && log.Delivered()
    ensures log.V() == Typed(log.enabled, old(log.V()), DumpText(p, data.GetOr(DumpData(16, None, 0))))
    ensures p == [] ==> log.V() == Typed(log.enabled, old(log.V()), "<<no data>>\n")
  {
    hide Typed, Log.Stored, Log.From, Rows, Row, Address, OffsetWidth, Cells, Text, Splits;
    if |p| == 0 {
      log.S("<<no data>>\n");
      return;
    }
    var d := data.GetOr(DEFAULT_DUMP_DATA);
    var numDumpColumns := Columns(d);
    var offsetWidth := OffsetWidth(d.firstAddress);
    var offset := 0;
    ghost var v, all := log.V(), Rows(p, d, 0);
    ghost var done := "";
    SplitsEnds(all, done);
    TypedAppend(log.enabled, v, "", "");
    log.NothingSent();
    while offset < |p|
      invariant log.Valid() && log.enabled == old(log.enabled) && log.Delivered()
      invariant Splits(all, done, Rows(p, d, offset))
      invariant log.V() == Typed(log.enabled, v, done)
    {
      RowsCons(p, d, offset);
      WriteRow(log, p, d, offset, numDumpColumns, offsetWidth);
      ghost var row := Row(p, d, offset) + "\n";
      TypedAppend(log.enabled, v, done, row);
      SplitsNext(all, done, row, Rows(p, d, offset + numDumpColumns));
      done := done + row;
      offset := offset + numDumpColumns;
    }
    RowsCons(p, d, offset);
    SplitsEnds(all, done);
  }

  /** The body of the loop. */
  method WriteRow(log: Log, p: seq<Octet>, d: DumpData, offset: nat, numDumpColumns: nat, offsetWidth: nat)
    requires log.Valid() && numDumpColumns == Columns(d) && offsetWidth == OffsetWidth(d.firstAddress)
    modifies log, log.buffer, log.printer
    ensures log.Valid() && log.enabled == old(log.enabled) && log.Delivered()
    ensures log.V() == Typed(log.enabled, old(log.V()), Row(p, d, offset) + "\n")
  {
    hide Typed, Log.Valid, Log.V, Log.From, Columns, OffsetWidth, Cells, Text, Row, RowStart;
    ghost var v, on := log.V(), log.enabled;
    ghost var head, cells := RowStart(d, offset), Cells(p, d, offset, numDumpColumns);
    RowParts(p, d, offset);
    log.S("0x" + Hex.Padded((d.firstAddress + offset) % TWO64, offsetWidth) + ": ");
    WriteCells(log, p, d, offset, numDumpColumns);
    TypedAppend(on, v, head, cells);
    log.S(" ");
    TypedAppend(on, v, head + cells, " ");
    var cs := CharacterText(p, offset, numDumpColumns);
    log.S(cs);
    TypedAppend(on, v, head + cells + " ", cs);
    log.S("\n");
    TypedAppend(on, v, head + cells + " " + cs, "\n");
  }

  lemma RowParts(p: seq<Octet>, d: DumpData, offset: nat)
    ensures RowStart(d, offset) ==
      "0x" + Hex.Padded((d.firstAddress + offset) % TWO64, OffsetWidth(d.firstAddress)) + ": "
    ensures Row(p, d, offset) ==
      RowStart(d, offset) + Cells(p, d, offset, Columns(d)) + " " + Text(p, offset, Columns(d))
  {
    hide Hex.Padded, OffsetWidth, Columns, Cells, Text;
  }
}
