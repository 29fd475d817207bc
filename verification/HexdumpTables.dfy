/** The rows the predefined formats of hexdump print for each block, and the programs that print them. */
module HexdumpTables {
  import opened Arithmetic

  import opened HexdumpMachine
  import opened HexdumpFormat
  import opened HexdumpReference
  import opened HexdumpParser
  import opened HexdumpRender
  import opened HexdumpWords
  import opened HexdumpNumbers
  import opened HexdumpRows
  import opened HexdumpTexts

  /** The numbers of HEXDUMP_b, HEXDUMP_d, HEXDUMP_o and HEXDUMP_x */
  const BYTE_OCTAL := NumberKind(8, 'o', 3, 1)
  const WORD_DECIMAL := NumberKind(10, 'u', 5, 2)
  const WORD_OCTAL := NumberKind(8, 'o', 6, 2)
  const WORD_HEX := NumberKind(16, 'x', 4, 2)

  // ------------------------------------------------------------------- the rows

  /** The byte block i of k bytes starts at, behind from others */
  function Start(from: nat, k: nat, i: nat, size: nat): (r: nat)
    ensures r <= size
  {
    Min(from + (if k == 2 then 2 * i else i), size)
  }

  function Part(block: seq<byte>, from: nat, k: nat, i: nat): seq<byte>
    requires k == 1 || k == 2
  {
    block[Start(from, k, i, |block|)..Start(from, k, i + 1, |block|)]
  }

  /** A number behind some blanks; blanks alone where there is no input left */
  function NumberCell(bigEndian: bool, block: seq<byte>, k: NumberKind, lead: nat): nat -> seq<byte>
    requires Shown(k)
  {
    (i: nat) => NumberText(bigEndian, Part(block, 0, k.bytes, i), k, lead)
  }

  function NumberText(bigEndian: bool, part: seq<byte>, k: NumberKind, lead: nat): seq<byte>
    requires Shown(k)
  {
    Spaces(lead) + if 1 <= |part| <= 2 then Places(k.base, k.width, Value(bigEndian, part)) else Spaces(k.width)
  }

  function LabelCell(block: seq<byte>): nat -> seq<byte> {
    (i: nat) => if i < |block| then Spaces(3 - |LabelText(block[i])|) + LabelText(block[i]) else Spaces(3)
  }

  /** The two digits of a byte */
  function HexCell(block: seq<byte>, from: nat): nat -> seq<byte> {
    (i: nat) => if from + i < |block| then Places(16, 2, block[from + i]) else Spaces(2)
  }

  function ListCell(block: seq<byte>): nat -> seq<byte> {
    (i: nat) => if i < |block| then Ascii("0x") + (Places(16, 2, block[i]) + Ascii(",")) else []
  }

  function PrintableCell(block: seq<byte>): nat -> seq<byte> {
    (i: nat) => if i < |block| then PrintableText(block[i]) else []
  }

  /** Cells with a blank between them, and a newline */
  function TableRow(head: seq<byte>, cell: nat -> seq<byte>, n: nat): seq<byte> {
    head + Spaced(cell, n) + [NEWLINE]
  }

  function Row_b(bigEndian: bool): Row {
    (block, a) => TableRow(Places(16, 7, a) + Spaces(1), NumberCell(bigEndian, block, BYTE_OCTAL, 0), 16)
  }

  function Row_c(): Row {
    (block, a) => TableRow(Places(16, 7, a) + Spaces(1), LabelCell(block), 16)
  }

  function Row_d(bigEndian: bool): Row {
    (block, a) => TableRow(Places(16, 7, a) + Spaces(1), NumberCell(bigEndian, block, WORD_DECIMAL, 2), 8)
  }

  function Row_o(bigEndian: bool): Row {
    (block, a) => TableRow(OctalAddress(a) + Spaces(3), NumberCell(bigEndian, block, WORD_OCTAL, 1), 8)
  }

  function Row_x(bigEndian: bool): Row {
    (block, a) => TableRow(Places(16, 7, a) + Spaces(1), NumberCell(bigEndian, block, WORD_HEX, 3), 8)
  }

  function Row_C(): Row {
    (block, a) =>
      Places(16, 8, a) + Spaces(2) + Spaced(HexCell(block, 0), 8) + Spaces(2) + Spaced(HexCell(block, 8), 8)
      + Ascii("  |") + Cells(PrintableCell(block), |block|) + Ascii("|") + [NEWLINE]
  }

  function Row_i(): Row {
    (block, a) => TableRow(Spaces(2), ListCell(block), |block|)
  }

  // ---------------------------------------------------------------- the programs

  function AddressUnit(item: Item, gap: nat): Unit { Unit(1, false, Around([], item, Spaces(gap)), 0, gap) }

  function CellUnit(n: nat, mark: bool, lead: seq<byte>, item: Item, tail: seq<byte>): Unit {
    Unit(n, mark, Around(lead, item, tail), 0, 1)
  }

  function TextUnit(text: seq<byte>, chop: nat, nopad: bool): Unit { Unit(1, nopad, Lits(text), 0, chop) }

  function Table(first: Unit, cells: Unit): Program { [[first, cells, TextUnit([NEWLINE], 0, cells.nopad)]] }

  function NumberTable(address: Item, gap: nat, k: NumberKind, n: nat, lead: nat): Program
    requires Shown(k)
  {
    Table(AddressUnit(address, gap), CellUnit(n, false, Spaces(lead), NumberItem(k), Spaces(1)))
  }

  const PROGRAM_b := NumberTable(ADDRESS7, 1, BYTE_OCTAL, 16, 0)
  const PROGRAM_c := Table(AddressUnit(ADDRESS7, 1), CellUnit(16, false, [], LABEL, Spaces(1)))
  const PROGRAM_d := NumberTable(ADDRESS7, 1, WORD_DECIMAL, 8, 2)
  const PROGRAM_o := NumberTable(OCTAL_ADDRESS, 3, WORD_OCTAL, 8, 1)
  const PROGRAM_x := NumberTable(ADDRESS7, 1, WORD_HEX, 8, 3)

  const HEX_CELLS := CellUnit(8, false, [], HEX_BYTE, Spaces(1))
  const PRINTABLE_CELLS := Unit(16, false, Around([], PRINTABLE, []), 0, 0)

  const PROGRAM_C: Program := [
    [AddressUnit(ADDRESS8, 2), HEX_CELLS, TextUnit(Spaces(2), 2, false), HEX_CELLS],
    [TextUnit(Ascii("  |"), 0, false), PRINTABLE_CELLS, TextUnit(Ascii("|") + [NEWLINE], 0, false)]]

  const LIST_CELLS := CellUnit(12, true, Ascii("0x"), HEX_BYTE, Ascii(", "))
  const PROGRAM_i := Table(TextUnit(Spaces(2), 2, false), LIST_CELLS)

  // ------------------------------------------------------------ cells and tables

  /** One repetition of a unit of cells */
  lemma OnceShows(su: Setup, n: nat, mark: bool, lead: seq<byte>, item: Item, tail: seq<byte>, s: State, inp: nat, text: seq<byte>)
    requires Inside(su, s) && inp <= |su.block|
    requires DoItem(su, COMPILED, item, State(s.inp, s.out + lead)) == Fine(State(inp, s.out + lead + text))
    ensures DoOnce(su, COMPILED, CellUnit(n, mark, lead, item, tail), s) == Fine(State(inp, s.out + (lead + text + tail)))
  {
    hide DoItem, DoItems, Around;
    AroundShows(su, lead, item, tail, s, inp, text);
    NothingSkipped();
  }

  lemma NothingSkipped()
    ensures Imm(COMPILED, 0) == 0 && Imm(COMPILED, 1) == 1
  {
  }

  /** A unit whose cells end in a blank, which is chopped behind the last one */
  lemma CellUnitShows(su: Setup, u: Unit, at: nat -> nat, cell: nat -> seq<byte>, wide: nat -> seq<byte>, n: nat, out: seq<byte>)
    requires 2 <= u.loop < 0x1_0000 && u.chop == 1 && 1 <= n <= u.loop && WritesCells(su, u, at, wide, n)
    requires n == u.loop || (u.nopad && |su.block| - at(n) < Consumes(u))
    requires forall i: nat :: i < n ==> wide(i) == cell(i) + [' ' as int]
    ensures Inside(su, State(at(0), out)) && Inside(su, State(at(n), out))
    ensures DoUnit(su, COMPILED, u, State(at(0), out)) == Fine(State(at(n), out + Spaced(cell, n)))
  {
    hide WritesCells, Repeat, Consumes, Spaced, Cells, Chop;
    CellsShow(su, u, at, wide, n, 0, out);
    NoCells(wide);
    assert out + [] == out;
    SpacedCells(cell, wide, n);
    NothingSkipped();
    ChopBlank(out, Spaced(cell, n));
  }

  lemma NoCells(cell: nat -> seq<byte>)
    ensures Cells(cell, 0) == []
  {
  }

  lemma NewlineShows(su: Setup, text: seq<byte>, chop: nat, nopad: bool, s: State)
    requires Inside(su, s)
    ensures DoUnit(su, COMPILED, TextUnit(text, chop, nopad), s) == Fine(State(s.inp, s.out + text))
  {
    hide DoItems, ItemsBytes, DoUnit, Lits;
    LitsShow(su, text, s);
    LitsReadNothing(text);
    SingleShows(su, Lits(text), chop, nopad, s, s.out + text);
  }

  /** A table: what stands in front, the cells, and the end of the line */
  lemma TableShows(su: Setup, first: Unit, cells: Unit, head: seq<byte>, inp: nat, cell: nat -> seq<byte>, n: nat, out: seq<byte>)
    requires inp <= |su.block|
    requires DoUnit(su, COMPILED, first, State(0, out)) == Fine(State(0, out + head))
    requires DoUnit(su, COMPILED, cells, State(0, out + head)) == Fine(State(inp, out + head + Spaced(cell, n)))
    ensures DoLines(su, COMPILED, Table(first, cells), State(0, out)) == Fine(State(inp, out + TableRow(head, cell, n)))
  {
    hide DoUnit, Spaced;
    var last := TextUnit([NEWLINE], 0, cells.nopad);
    NewlineShows(su, [NEWLINE], 0, cells.nopad, State(inp, out + head + Spaced(cell, n)));
    UnitsMore(su, [], first, State(0, out), State(0, out));
    UnitsMore(su, [first], cells, State(0, out), State(0, out + head));
    UnitsMore(su, [first, cells], last, State(0, out), State(inp, out + head + Spaced(cell, n)));
    assert [] + [first] == [first] && [first] + [cells] == [first, cells] && [first, cells] + [last] == [first, cells, last];
    assert out + head + Spaced(cell, n) + [NEWLINE] == out + TableRow(head, cell, n);
    OneLine(su, [first, cells, last], State(0, out));
  }

  lemma OneLine(su: Setup, line: Line, s: State)
    requires Inside(su, s)
    ensures DoLines(su, COMPILED, [line], s) == DoUnits(su, COMPILED, line, State(0, s.out))
  {
    hide DoUnits;
    assert [line][..0] == [];
    assert DoLines(su, COMPILED, [], s) == Fine(s);
  }

  /** The offset in front of a row */
  lemma OffsetShows(su: Setup, item: Item, gap: nat, text: seq<byte>, out: seq<byte>)
    requires DoItem(su, COMPILED, item, State(0, out)) == Fine(State(0, out + text))
    ensures DoUnit(su, COMPILED, AddressUnit(item, gap), State(0, out)) == Fine(State(0, out + (text + Spaces(gap))))
  {
    hide DoItem, DoItems, DoUnit, Around;
    assert out + [] == out;
    AroundShows(su, [], item, Spaces(gap), State(0, out), 0, text);
    assert [] + text + Spaces(gap) == text + Spaces(gap);
    SingleShows(su, Around([], item, Spaces(gap)), gap, false, State(0, out), out + (text + Spaces(gap)));
  }

  // ---------------------------------------------------------------- number tables

  function Starts(from: nat, k: nat, size: nat): nat -> nat { (i: nat) => Start(from, k, i, size) }

  function Wide(cell: nat -> seq<byte>): nat -> seq<byte> { (i: nat) => cell(i) + [' ' as int] }

  /** One number */
  lemma NumberWritten(su: Setup, k: NumberKind, n: nat, lead: nat, i: nat, out: seq<byte>)
    requires FullPrintf(su.printf) && Shown(k) && i < n && k.bytes * n <= 16
    ensures CellWritten(su, CellUnit(n, false, Spaces(lead), NumberItem(k), Spaces(1)), Starts(0, k.bytes, |su.block|),
      Wide(NumberCell(su.bigEndian, su.block, k, lead)), i, out)
  {
    hide DoOnce, DoItem, FullPrintf, Places, Value, CellUnit, NumberItem, Spaces, Consumes;
    var inp := Start(0, k.bytes, i, |su.block|);
    var part := Part(su.block, 0, k.bytes, i);
    PartFetched(su, k.bytes, i, n);
    NumberShows(su, k, State(inp, out + Spaces(lead)));
    var text := if part == [] then Spaces(k.width) else Places(k.base, k.width, Value(su.bigEndian, part));
    OnceShows(su, n, false, Spaces(lead), NumberItem(k), Spaces(1), State(inp, out), inp + |part|, text);
    OneBlank();
    assert Spaces(lead) + text == NumberText(su.bigEndian, part, k, lead);
    NotMarked(n, Spaces(lead), NumberItem(k), Spaces(1));
  }

  lemma PartFetched(su: Setup, k: nat, i: nat, n: nat)
    requires 1 <= k <= 2 && i < n && k * n <= 16
    ensures var inp, part := Start(0, k, i, |su.block|), Part(su.block, 0, k, i);
      part == Fetched(su, inp, k) && |part| <= k && Start(0, k, i + 1, |su.block|) == inp + |part|
  {
  }

  lemma OneBlank()
    ensures Spaces(1) == [' ' as int]
  {
  }

  lemma NotMarked(n: nat, lead: seq<byte>, item: Item, tail: seq<byte>)
    ensures !CellUnit(n, false, lead, item, tail).nopad
  {
  }

  lemma NumbersShow(su: Setup, k: NumberKind, n: nat, lead: nat, out: seq<byte>)
    requires FullPrintf(su.printf) && Shown(k) && 2 <= n && k.bytes * n == 16
    ensures DoUnit(su, COMPILED, CellUnit(n, false, Spaces(lead), NumberItem(k), Spaces(1)), State(0, out))
      == Fine(State(Start(0, k.bytes, n, |su.block|), out + Spaced(NumberCell(su.bigEndian, su.block, k, lead), n)))
  {
    hide DoUnit, FullPrintf, NumberCell, Spaced, CellWritten;
    var u, at, cell := CellUnit(n, false, Spaces(lead), NumberItem(k), Spaces(1)), Starts(0, k.bytes, |su.block|),
      NumberCell(su.bigEndian, su.block, k, lead);
    forall i: nat, o: seq<byte> | i < n
      ensures CellWritten(su, u, at, Wide(cell), i, o)
    {
      NumberWritten(su, k, n, lead, i, o);
    }
    assert WritesCells(su, u, at, Wide(cell), n);
    CellUnitShows(su, u, at, cell, Wide(cell), n, out);
    assert at(0) == 0;
  }

  /** The offset, the numbers of the block in their byte order, and the end of the line */
  lemma NumberTableShows(su: Setup, address: Item, text: seq<byte>, gap: nat, k: NumberKind, n: nat, lead: nat, out: seq<byte>)
    requires FullPrintf(su.printf) && Shown(k) && 2 <= n && k.bytes * n == 16
    requires DoItem(su, COMPILED, address, State(0, out)) == Fine(State(0, out + text))
    ensures DoLines(su, COMPILED, NumberTable(address, gap, k, n, lead), State(0, out))
      == Fine(State(Start(0, k.bytes, n, |su.block|),
           out + TableRow(text + Spaces(gap), NumberCell(su.bigEndian, su.block, k, lead), n)))
  {
    hide DoUnit, DoItem, DoLines, FullPrintf, NumberCell, TableRow, Spaced, CellUnit, AddressUnit, Table;
    OffsetShows(su, address, gap, text, out);
    var head := text + Spaces(gap);
    NumbersShow(su, k, n, lead, out + head);
    TableShows(su, AddressUnit(address, gap), CellUnit(n, false, Spaces(lead), NumberItem(k), Spaces(1)), head,
      Start(0, k.bytes, n, |su.block|), NumberCell(su.bigEndian, su.block, k, lead), n, out);
  }

  lemma RowsOfNumbers(bigEndian: bool, printf: Printf)
    requires FullPrintf(printf)
    ensures WritesRows(PROGRAM_b, bigEndian, printf, 16, Row_b(bigEndian))
    ensures WritesRows(PROGRAM_d, bigEndian, printf, 16, Row_d(bigEndian))
    ensures WritesRows(PROGRAM_o, bigEndian, printf, 16, Row_o(bigEndian))
    ensures WritesRows(PROGRAM_x, bigEndian, printf, 16, Row_x(bigEndian))
  {
    hide DoLines, DoItem, FullPrintf, NumberTable, TableRow, Places, OctalAddress, NumberCell;
    forall su: Setup, out: seq<byte> | su.bigEndian == bigEndian && su.printf == printf && 0 < |su.block| <= 16
      ensures RowShows(su, PROGRAM_b, Row_b(bigEndian), out) && RowShows(su, PROGRAM_d, Row_d(bigEndian), out)
      ensures RowShows(su, PROGRAM_o, Row_o(bigEndian), out) && RowShows(su, PROGRAM_x, Row_x(bigEndian), out)
    {
      AddressShows(su, State(0, out));
      OctalAddressShows(su, State(0, out));
      NumberTableShows(su, ADDRESS7, Places(16, 7, su.address), 1, BYTE_OCTAL, 16, 0, out);
      NumberTableShows(su, ADDRESS7, Places(16, 7, su.address), 1, WORD_DECIMAL, 8, 2, out);
      NumberTableShows(su, OCTAL_ADDRESS, OctalAddress(su.address), 3, WORD_OCTAL, 8, 1, out);
      NumberTableShows(su, ADDRESS7, Places(16, 7, su.address), 1, WORD_HEX, 8, 3, out);
    }
  }

  // ------------------------------------------------------------- tables of bytes

  /** One cell of single bytes: text is what the conversion writes, blanks behind the end of the block. */
  lemma ByteWritten(su: Setup, n: nat, lead: seq<byte>, item: Item, tail: seq<byte>, from: nat, cell: nat -> seq<byte>, i: nat,
      text: seq<byte>, out: seq<byte>)
    requires i < n && cell(i) == lead + text + tail
    requires var inp := Start(from, 1, i, |su.block|);
      DoItem(su, COMPILED, item, State(inp, out + lead)) == Fine(State(Start(from, 1, i + 1, |su.block|), out + lead + text))
    ensures CellWritten(su, CellUnit(n, false, lead, item, tail), Starts(from, 1, |su.block|), cell, i, out)
  {
    hide DoOnce, DoItem, CellUnit;
    OnceShows(su, n, false, lead, item, tail, State(Start(from, 1, i, |su.block|), out), Start(from, 1, i + 1, |su.block|), text);
    NotMarked(n, lead, item, tail);
  }

  lemma LabelsShow(su: Setup, out: seq<byte>)
    requires FullPrintf(su.printf) && |su.block| <= 16
    ensures DoUnit(su, COMPILED, CellUnit(16, false, [], LABEL, Spaces(1)), State(0, out))
      == Fine(State(|su.block|, out + Spaced(LabelCell(su.block), 16)))
  {
    hide DoUnit, DoItem, FullPrintf, Spaced, CellWritten, LabelText;
    var u, at, cell := CellUnit(16, false, [], LABEL, Spaces(1)), Starts(0, 1, |su.block|), LabelCell(su.block);
    forall i: nat, o: seq<byte> | i < 16
      ensures CellWritten(su, u, at, Wide(cell), i, o)
    {
      var inp := Start(0, 1, i, |su.block|);
      assert o + [] == o;
      LabelShows(su, State(inp, o));
      assert Wide(cell)(i) == [] + cell(i) + Spaces(1);
      ByteWritten(su, 16, [], LABEL, Spaces(1), 0, Wide(cell), i, cell(i), o);
    }
    assert WritesCells(su, u, at, Wide(cell), 16);
    CellUnitShows(su, u, at, cell, Wide(cell), 16, out);
    assert at(0) == 0 && at(16) == |su.block|;
  }

  lemma HexBytesShow(su: Setup, from: nat, out: seq<byte>)
    requires FullPrintf(su.printf)
    ensures DoUnit(su, COMPILED, HEX_CELLS, State(Start(from, 1, 0, |su.block|), out))
      == Fine(State(Start(from, 1, 8, |su.block|), out + Spaced(HexCell(su.block, from), 8)))
  {
    hide DoUnit, DoItem, Spaced, CellWritten, Places, HexItem;
    var at, cell := Starts(from, 1, |su.block|), HexCell(su.block, from);
    forall i: nat, o: seq<byte> | i < 8
      ensures CellWritten(su, HEX_CELLS, at, Wide(cell), i, o)
    {
      var inp := Start(from, 1, i, |su.block|);
      assert o + [] == o;
      HexByteShows(su, State(inp, o));
      assert Wide(cell)(i) == [] + cell(i) + Spaces(1);
      ByteWritten(su, 8, [], HEX_BYTE, Spaces(1), from, Wide(cell), i, cell(i), o);
    }
    assert WritesCells(su, HEX_CELLS, at, Wide(cell), 8);
    CellUnitShows(su, HEX_CELLS, at, cell, Wide(cell), 8, out);
  }

  /** A unit that stops where the input ends */
  lemma ListShows(su: Setup, out: seq<byte>)
    requires FullPrintf(su.printf) && 0 < |su.block| <= 12
    ensures DoUnit(su, COMPILED, LIST_CELLS, State(0, out)) == Fine(State(|su.block|, out + Spaced(ListCell(su.block), |su.block|)))
  {
    hide DoUnit, DoItem, Spaced, CellWritten, Places, HexItem, LIST_CELLS;
    var at, cell, n := Starts(0, 1, |su.block|), ListCell(su.block), |su.block|;
    ListUnit();
    forall i: nat, o: seq<byte> | i < n
      ensures CellWritten(su, LIST_CELLS, at, Wide(cell), i, o)
    {
      HexByteShows(su, State(i, o + Ascii("0x")));
      EntryWritten(su, i, o);
    }
    assert WritesCells(su, LIST_CELLS, at, Wide(cell), n);
    CellUnitShows(su, LIST_CELLS, at, cell, Wide(cell), n, out);
    assert at(0) == 0 && at(n) == n;
  }

  lemma ListUnit()
    ensures Consumes(LIST_CELLS) == 1 && LIST_CELLS.nopad && LIST_CELLS.loop == 12 && LIST_CELLS.chop == 1
  {
    hide ItemsBytes, Around;
    AroundReads(Ascii("0x"), HEX_BYTE, Ascii(", "), 1);
  }

  lemma EntryWritten(su: Setup, i: nat, out: seq<byte>)
    requires i < |su.block| && var s := State(i, out + Ascii("0x"));
      DoItem(su, COMPILED, HEX_BYTE, s) == Fine(State(i + 1, s.out + Places(16, 2, su.block[i])))
    ensures CellWritten(su, LIST_CELLS, Starts(0, 1, |su.block|), Wide(ListCell(su.block)), i, out)
  {
    hide DoItem, DoOnce, Places, HexItem, Consumes;
    ListUnit();
    var text := Places(16, 2, su.block[i]);
    OnceShows(su, 12, true, Ascii("0x"), HEX_BYTE, Ascii(", "), State(i, out), i + 1, text);
    assert Ascii("0x") + text + Ascii(", ") == Ascii("0x") + (text + Ascii(",")) + [' ' as int];
  }

  lemma PrintableShow(su: Setup, out: seq<byte>)
    requires |su.block| <= 16
    ensures DoUnit(su, COMPILED, PRINTABLE_CELLS, State(0, out)) == Fine(State(|su.block|, out + Cells(PrintableCell(su.block), |su.block|)))
  {
    hide DoItem, Cells, CellWritten, PrintableText, Repeat;
    var u, at, cell := PRINTABLE_CELLS, Starts(0, 1, |su.block|), PrintableCell(su.block);
    forall i: nat, o: seq<byte> | i < 16
      ensures CellWritten(su, u, at, cell, i, o)
    {
      var inp := Start(0, 1, i, |su.block|);
      PrintableShows(su, State(inp, o));
      PrintableWritten(su, i, o);
    }
    assert WritesCells(su, u, at, cell, 16);
    NoCells(cell);
    assert out + [] == out;
    CellsShow(su, u, at, cell, 16, 0, out);
    EmptyCells(cell, |su.block|, 16);
    NothingSkipped();
    ChopNothing(out + Cells(cell, 16));
  }

  lemma ChopNothing(out: seq<byte>)
    ensures Chop(out, 0) == out
  {
  }

  lemma PrintableWritten(su: Setup, i: nat, out: seq<byte>)
    requires i < 16 && |su.block| <= 16
    requires var inp := Start(0, 1, i, |su.block|);
      DoItem(su, COMPILED, PRINTABLE, State(inp, out)) == Fine(State(Start(0, 1, i + 1, |su.block|), out + PrintableCell(su.block)(i)))
    ensures CellWritten(su, PRINTABLE_CELLS, Starts(0, 1, |su.block|), PrintableCell(su.block), i, out)
  {
    hide DoItem, DoItems, PrintableText, Around;
    var inp, text := Start(0, 1, i, |su.block|), PrintableCell(su.block)(i);
    assert out + [] == out;
    AroundShows(su, [], PRINTABLE, [], State(inp, out), Start(0, 1, i + 1, |su.block|), text);
    assert [] + text + [] == text;
    NothingSkipped();
  }

  lemma {:induction false} EmptyCells(cell: nat -> seq<byte>, m: nat, n: nat)
    requires m <= n && forall i: nat :: m <= i < n ==> cell(i) == []
    ensures Cells(cell, n) == Cells(cell, m)
    decreases n
  {
    if m < n {
      EmptyCells(cell, m, n - 1);
      assert Cells(cell, n - 1) + [] == Cells(cell, n - 1);
    }
  }

  /** The two lines of the canonical format */
  lemma CanonicalShows(su: Setup, out: seq<byte>)
    requires FullPrintf(su.printf) && 0 < |su.block| <= 16
    ensures RowShows(su, PROGRAM_C, Row_C(), out)
  {
    hide DoUnit, DoItem, FullPrintf, Spaced, Places, Cells, Lits, Around, Spaces, Ascii, HexCell, PrintableCell;
    var first, second := PROGRAM_C[0], PROGRAM_C[1];
    FirstLine(su, out);
    var mid := out + (Places(16, 8, su.address) + Spaces(2) + Spaced(HexCell(su.block, 0), 8) + Spaces(2) + Spaced(HexCell(su.block, 8), 8));
    SecondLine(su, mid);
    TwoLines(su, first, second, out, Start(8, 1, 8, |su.block|), mid);
    var shown := Cells(PrintableCell(su.block), |su.block|);
    assert mid + (Ascii("  |") + shown + Ascii("|") + [NEWLINE]) == out + Row_C()(su.block, su.address);
  }

  lemma TwoLines(su: Setup, first: Line, second: Line, out: seq<byte>, inp: nat, mid: seq<byte>)
    requires inp <= |su.block| && DoUnits(su, COMPILED, first, State(0, out)) == Fine(State(inp, mid))
    ensures DoLines(su, COMPILED, [first, second], State(0, out)) == DoUnits(su, COMPILED, second, State(0, mid))
  {
    hide DoUnits;
    OneLine(su, first, State(0, out));
    assert [first, second][..1] == [first];
  }

  lemma FirstLine(su: Setup, out: seq<byte>)
    requires FullPrintf(su.printf) && 0 < |su.block| <= 16
    ensures DoUnits(su, COMPILED, PROGRAM_C[0], State(0, out)) == Fine(State(Start(8, 1, 8, |su.block|),
      out + (Places(16, 8, su.address) + Spaces(2) + Spaced(HexCell(su.block, 0), 8) + Spaces(2) + Spaced(HexCell(su.block, 8), 8))))
  {
    hide DoUnit, DoUnits, DoItem, FullPrintf, Spaced, Places, Lits, Around, HEX_CELLS, AddressUnit, TextUnit, HexCell, Spaces;
    AddressShows(su, State(0, out));
    OffsetShows(su, ADDRESS8, 2, Places(16, 8, su.address), out);
    var a := out + (Places(16, 8, su.address) + Spaces(2));
    HexBytesShow(su, 0, a);
    var b := a + Spaced(HexCell(su.block, 0), 8);
    var at := Start(8, 1, 0, |su.block|);
    NewlineShows(su, Spaces(2), 2, false, State(at, b));
    var c := b + Spaces(2);
    HexBytesShow(su, 8, c);
    var line := PROGRAM_C[0];
    FourUnits(line);
    NoUnits(su, State(0, out));
    UnitsMore(su, [], line[0], State(0, out), State(0, out));
    UnitsMore(su, [line[0]], line[1], State(0, out), State(0, a));
    UnitsMore(su, [line[0], line[1]], line[2], State(0, out), State(at, b));
    UnitsMore(su, [line[0], line[1], line[2]], line[3], State(0, out), State(at, c));
    var head := Places(16, 8, su.address) + Spaces(2);
    var x, y := Spaced(HexCell(su.block, 0), 8), Spaced(HexCell(su.block, 8), 8);
    assert c + y == out + (head + x + Spaces(2) + y);
  }

  lemma NoUnits(su: Setup, s: State)
    requires Inside(su, s)
    ensures DoUnits(su, COMPILED, [], s) == Fine(s)
  {
  }

  lemma FourUnits(line: Line)
    requires |line| == 4
    ensures [] + [line[0]] == [line[0]] && [line[0]] + [line[1]] == [line[0], line[1]]
    ensures [line[0], line[1]] + [line[2]] == [line[0], line[1], line[2]] && [line[0], line[1], line[2]] + [line[3]] == line
  {
  }

  lemma SecondLine(su: Setup, out: seq<byte>)
    requires |su.block| <= 16
    ensures DoUnits(su, COMPILED, PROGRAM_C[1], State(0, out))
      == Fine(State(|su.block|, out + (Ascii("  |") + Cells(PrintableCell(su.block), |su.block|) + Ascii("|") + [NEWLINE])))
  {
    hide DoUnit, DoUnits, DoItem, Cells, Lits, Around, PRINTABLE_CELLS, TextUnit, PrintableCell, Ascii;
    NewlineShows(su, Ascii("  |"), 0, false, State(0, out));
    var a := out + Ascii("  |");
    PrintableShow(su, a);
    var b := a + Cells(PrintableCell(su.block), |su.block|);
    NewlineShows(su, Ascii("|") + [NEWLINE], 0, false, State(|su.block|, b));
    var line := PROGRAM_C[1];
    assert [] + [line[0]] == [line[0]] && [line[0]] + [line[1]] == [line[0], line[1]] && [line[0], line[1]] + [line[2]] == line;
    NoUnits(su, State(0, out));
    UnitsMore(su, [], line[0], State(0, out), State(0, out));
    UnitsMore(su, [line[0]], line[1], State(0, out), State(0, a));
    UnitsMore(su, [line[0], line[1]], line[2], State(0, out), State(|su.block|, b));
    var shown := Cells(PrintableCell(su.block), |su.block|);
    assert b + (Ascii("|") + [NEWLINE]) == out + (Ascii("  |") + shown + Ascii("|") + [NEWLINE]);
  }

  lemma RowsOfBytes(bigEndian: bool, printf: Printf)
    requires FullPrintf(printf)
    ensures WritesRows(PROGRAM_c, bigEndian, printf, 16, Row_c())
    ensures WritesRows(PROGRAM_C, bigEndian, printf, 16, Row_C())
    ensures WritesRows(PROGRAM_i, bigEndian, printf, 12, Row_i())
  {
    hide DoLines, DoItem, DoUnit, FullPrintf, TableRow, Places, LabelCell, RowShows, CellUnit, Table, ListCell, AddressUnit, TextUnit;
    forall su: Setup, out: seq<byte> | su.bigEndian == bigEndian && su.printf == printf && 0 < |su.block| <= 16
      ensures RowShows(su, PROGRAM_c, Row_c(), out) && RowShows(su, PROGRAM_C, Row_C(), out)
    {
      LabelRow(su, out);
      CanonicalShows(su, out);
    }
    forall su: Setup, out: seq<byte> | su.bigEndian == bigEndian && su.printf == printf && 0 < |su.block| <= 12
      ensures RowShows(su, PROGRAM_i, Row_i(), out)
    {
      ListRow(su, out);
    }
  }

  lemma LabelRow(su: Setup, out: seq<byte>)
    requires FullPrintf(su.printf) && 0 < |su.block| <= 16
    ensures RowShows(su, PROGRAM_c, Row_c(), out)
  {
    hide DoLines, DoItem, DoUnit, FullPrintf, TableRow, Places, LabelCell, CellUnit, Table, AddressUnit, Spaced;
    AddressShows(su, State(0, out));
    OffsetShows(su, ADDRESS7, 1, Places(16, 7, su.address), out);
    var head := Places(16, 7, su.address) + Spaces(1);
    LabelsShow(su, out + head);
    TableShows(su, AddressUnit(ADDRESS7, 1), CellUnit(16, false, [], LABEL, Spaces(1)), head, |su.block|, LabelCell(su.block), 16, out);
  }

  lemma ListRow(su: Setup, out: seq<byte>)
    requires FullPrintf(su.printf) && 0 < |su.block| <= 12
    ensures RowShows(su, PROGRAM_i, Row_i(), out)
  {
    hide DoLines, DoItem, DoUnit, FullPrintf, TableRow, LIST_CELLS, Table, TextUnit, Spaced, ListCell;
    NewlineShows(su, Spaces(2), 2, false, State(0, out));
    ListShows(su, out + Spaces(2));
    TableShows(su, TextUnit(Spaces(2), 2, false), LIST_CELLS, Spaces(2), |su.block|, ListCell(su.block), |su.block|, out);
  }

  // --------------------------------------------------- the size of code and blocks

  lemma IntSize(i: int)
    ensures |IntCode(i)| <= 6
  {
  }

  lemma ItemSize(item: Item)
    ensures |ItemCode(item)| <= 70
  {
    hide IntCode, JumpCode, KindOf;
    if item.Conv? {
      IntSize(ReadBytes(item));
      IntSize(item.flags);
      IntSize(item.width);
      IntSize(item.prec);
      IntSize(item.fc);
      assert |GeneralCode(item)| <= 32;
    }
  }

  lemma {:induction false} ItemsSize(items: seq<Item>)
    ensures |ItemsCode(items)| <= 70 * |items|
    decreases |items|
  {
    hide ItemCode;
    if items != [] {
      ItemSize(items[|items| - 1]);
      ItemsSize(items[..|items| - 1]);
    }
  }

  lemma UnitSize(u: Unit)
    ensures |UnitCode(u)| <= 70 * (|u.items| + 1)
  {
    hide IntCode, JumpCode, ItemsCode;
    ItemsSize(u.items);
    IntSize(u.loop);
    IntSize(u.skip);
    IntSize(u.chop);
    assert |TestCode(u)| <= 15;
    assert |BodyCode(u)| <= 11 + 70 * |u.items|;
  }

  /** The items of a line, and its units */
  function Parts(line: Line): nat {
    if line == [] then 0 else Parts(line[..|line| - 1]) + |line[|line| - 1].items| + 1
  }

  lemma {:induction false} UnitsSize(line: Line)
    ensures |UnitsCode(line)| <= 70 * Parts(line)
    decreases |line|
  {
    hide UnitCode;
    if line != [] {
      UnitSize(line[|line| - 1]);
      UnitsSize(line[..|line| - 1]);
    }
  }

  lemma LineParts(line: Line)
    ensures |line| == 3 ==> Parts(line) == |line[0].items| + |line[1].items| + |line[2].items| + 3
    ensures |line| == 4 ==> Parts(line) == |line[0].items| + |line[1].items| + |line[2].items| + |line[3].items| + 4
    ensures |line| == 3 ==> LineSize(line) == Taken(line[0]) + Taken(line[1]) + Taken(line[2])
    ensures |line| == 4 ==> LineSize(line) == Taken(line[0]) + Taken(line[1]) + Taken(line[2]) + Taken(line[3])
  {
    hide Taken;
    if |line| == 3 { ThreeParts(line); }
    if |line| == 4 {
      ThreeParts(line[..3]);
      LastTaken(line);
    }
  }

  lemma ThreeParts(line: Line)
    requires |line| == 3
    ensures Parts(line) == |line[0].items| + |line[1].items| + |line[2].items| + 3
    ensures LineSize(line) == Taken(line[0]) + Taken(line[1]) + Taken(line[2])
  {
    hide Taken;
    LastTaken(line);
    LastTaken(line[..2]);
    LastTaken(line[..1]);
    assert line[..2][..1] == line[..1] && line[..1][..0] == [];
    assert Parts([]) == 0 && LineSize([]) == 0;
  }

  /** What the repetitions of a unit take from a block */
  function Taken(u: Unit): int { Consumes(u) * u.loop }

  lemma LastTaken(line: Line)
    requires line != []
    ensures LineSize(line) == LineSize(line[..|line| - 1]) + Taken(line[|line| - 1])
    ensures Parts(line) == Parts(line[..|line| - 1]) + |line[|line| - 1].items| + 1
  {
  }

  lemma AroundTaken(u: Unit, lead: seq<byte>, item: Item, tail: seq<byte>)
    requires u.items == Around(lead, item, tail) && u.skip == 0 && item.Conv?
    ensures Taken(u) == item.bytes * u.loop
  {
    hide ItemsBytes, Around;
    AroundHas(lead, item, tail);
  }

  lemma AroundHas(lead: seq<byte>, item: Item, tail: seq<byte>)
    requires item.Conv?
    ensures ItemsBytes(Around(lead, item, tail)) == item.bytes && |Around(lead, item, tail)| == |lead| + 1 + |tail|
  {
    hide ItemsBytes;
    LitsReadNothing(lead);
    LitsReadNothing(tail);
    BytesJoin(Lits(lead), [item] + Lits(tail));
    BytesJoin([item], Lits(tail));
    OneRead(item);
  }

  lemma TextTaken(u: Unit, text: seq<byte>)
    requires u.items == Lits(text) && u.skip == 0
    ensures Taken(u) == 0
  {
    hide ItemsBytes;
    LitsReadNothing(text);
  }

  lemma OneLineSize(line: Line)
    ensures |LinesCode([line])| <= 70 * Parts(line) + 1 && BlockSize([line]) == Max(0, LineSize(line))
  {
    hide Parts;
    UnitsSize(line);
    assert [line][..0] == [];
    assert LinesCode([]) == [] && BlockSize([]) == 0;
  }

  lemma TwoLinesSize(a: Line, b: Line)
    ensures |LinesCode([a, b])| <= 70 * (Parts(a) + Parts(b)) + 2 && BlockSize([a, b]) == Max(Max(0, LineSize(a)), LineSize(b))
  {
    hide Parts, UnitsCode, LineSize;
    OneLineSize(a);
    UnitsSize(b);
    assert [a, b][..1] == [a];
  }

  /** A table whose cells take bytes bytes, n times */
  lemma TableSize(first: Unit, cells: Unit, lead: seq<byte>, item: Item, tail: seq<byte>)
    requires Taken(first) == 0 && cells.items == Around(lead, item, tail) && item.Conv? && cells.skip == 0 && item.bytes >= 0
    requires |first.items| + |lead| + |tail| <= 20
    ensures |LinesCode(Table(first, cells))| < 4000 && BlockSize(Table(first, cells)) == item.bytes * cells.loop
  {
    hide Parts, LineSize, UnitsCode, Around, Taken, LinesCode, BlockSize;
    var last := TextUnit([NEWLINE], 0, cells.nopad);
    AroundTaken(cells, lead, item, tail);
    AroundHas(lead, item, tail);
    TextTaken(last, [NEWLINE]);
    LineParts([first, cells, last]);
    OneLineSize([first, cells, last]);
    Product(item.bytes, cells.loop);
  }

  /** Every table takes blocks of 16 bytes, the list of HEXDUMP_i blocks of 12. */
  lemma TablesFit()
    ensures forall p :: p in [PROGRAM_b, PROGRAM_c, PROGRAM_d, PROGRAM_o, PROGRAM_x] ==> |LinesCode(p)| < 4000 && BlockSize(p) == 16
    ensures |LinesCode(PROGRAM_i)| < 4000 && BlockSize(PROGRAM_i) == 12
  {
    hide LinesCode, BlockSize, Around, Table, Taken, Spaces, Ascii;
    FirstTaken();
    TableSize(AddressUnit(ADDRESS7, 1), CellUnit(16, false, Spaces(0), NumberItem(BYTE_OCTAL), Spaces(1)), Spaces(0), NumberItem(BYTE_OCTAL), Spaces(1));
    TableSize(AddressUnit(ADDRESS7, 1), CellUnit(16, false, [], LABEL, Spaces(1)), [], LABEL, Spaces(1));
    TableSize(AddressUnit(ADDRESS7, 1), CellUnit(8, false, Spaces(2), NumberItem(WORD_DECIMAL), Spaces(1)), Spaces(2), NumberItem(WORD_DECIMAL), Spaces(1));
    TableSize(AddressUnit(OCTAL_ADDRESS, 3), CellUnit(8, false, Spaces(1), NumberItem(WORD_OCTAL), Spaces(1)), Spaces(1), NumberItem(WORD_OCTAL), Spaces(1));
    TableSize(AddressUnit(ADDRESS7, 1), CellUnit(8, false, Spaces(3), NumberItem(WORD_HEX), Spaces(1)), Spaces(3), NumberItem(WORD_HEX), Spaces(1));
    TableSize(TextUnit(Spaces(2), 2, false), LIST_CELLS, Ascii("0x"), HEX_BYTE, Ascii(", "));
  }

  lemma FirstTaken()
    ensures Taken(AddressUnit(ADDRESS7, 1)) == Taken(AddressUnit(OCTAL_ADDRESS, 3)) == Taken(AddressUnit(ADDRESS8, 2)) == 0
    ensures Taken(TextUnit(Spaces(2), 2, false)) == 0
    ensures |AddressUnit(ADDRESS7, 1).items| == 2 && |AddressUnit(OCTAL_ADDRESS, 3).items| == 4 && |AddressUnit(ADDRESS8, 2).items| == 3
    ensures |TextUnit(Spaces(2), 2, false).items| == 2
  {
    hide Around, Taken, Spaces, Lits;
    AroundTaken(AddressUnit(ADDRESS7, 1), [], ADDRESS7, Spaces(1));
    AroundTaken(AddressUnit(OCTAL_ADDRESS, 3), [], OCTAL_ADDRESS, Spaces(3));
    AroundTaken(AddressUnit(ADDRESS8, 2), [], ADDRESS8, Spaces(2));
    AroundHas([], ADDRESS7, Spaces(1));
    AroundHas([], OCTAL_ADDRESS, Spaces(3));
    AroundHas([], ADDRESS8, Spaces(2));
    TextTaken(TextUnit(Spaces(2), 2, false), Spaces(2));
  }

  lemma CanonicalFits()
    ensures |LinesCode(PROGRAM_C)| < 4000 && BlockSize(PROGRAM_C) == 16
  {
    hide LinesCode, BlockSize, Around, Taken, Spaces, Ascii, LineSize, Parts, Lits;
    FirstTaken();
    AroundTaken(HEX_CELLS, [], HEX_BYTE, Spaces(1));
    AroundHas([], HEX_BYTE, Spaces(1));
    LineParts(PROGRAM_C[0]);
    TextTaken(PROGRAM_C[1][0], Ascii("  |"));
    AroundTaken(PRINTABLE_CELLS, [], PRINTABLE, []);
    AroundHas([], PRINTABLE, []);
    TextTaken(PROGRAM_C[1][2], Ascii("|") + [NEWLINE]);
    LineParts(PROGRAM_C[1]);
    TwoLinesSize(PROGRAM_C[0], PROGRAM_C[1]);
  }
}
