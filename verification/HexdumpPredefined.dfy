/** The predefined formats of hexdump: each text is parsed as its program, and the whole of it, from
    the text to the output, prints for every input just the rows its users know. */
module HexdumpPredefined {
  import opened Arithmetic

  import opened HexdumpMachine
  import opened HexdumpFormat
  import opened HexdumpParser
  import opened HexdumpRender
  import opened HexdumpWords
  import opened HexdumpNumbers
  import opened HexdumpRows
  import opened HexdumpTexts
  import opened HexdumpTables
  import opened HexdumpContext
  import opened HexdumpBlocks
  import opened HexdumpStream

  const OFFSET := Ascii("\"%07.7_ax \"")
  const NEXT_LINE := Ascii("\"\\n\"")

  /** HEXDUMP_b, HEXDUMP_c, HEXDUMP_d, HEXDUMP_o and HEXDUMP_x, unit by unit */
  const TEXT_b := [[OFFSET, Ascii("16/1 \"%03o \""), NEXT_LINE]]
  const TEXT_c := [[OFFSET, Ascii("16/1 \"%3_c \""), NEXT_LINE]]
  const TEXT_d := [[OFFSET, Ascii("8/2 \"  %05u \""), NEXT_LINE]]
  const TEXT_o := [[Ascii("\"%07.7_ao   \""), Ascii("8/2 \" %06o \""), NEXT_LINE]]
  const TEXT_x := [[OFFSET, Ascii("8/2 \"   %04x \""), NEXT_LINE]]

  /** HEXDUMP_C, its two lines */
  const TEXT_C := [
    [Ascii("\"%08.8_ax  \""), Ascii("8/1 \"%02x \""), Ascii("\"  \""), Ascii("8/1 \"%02x \"")],
    [Ascii("\"  |\""), Ascii("16/1 \"%_p\""), Ascii("\"|\\n\"")]]

  /** HEXDUMP_i */
  const TEXT_i := [[Ascii("\"  \""), Ascii("12/1? \"0x%02x, \""), NEXT_LINE]]

  // ------------------------------------------------------- the texts are the programs

  lemma ZeroFlag()
    ensures FlagsText(F_ZERO, 0) == ['0' as int] && FlagsText(0, 0) == []
  {
    Weights();
    hide Pow2;
    assert FlagsText(F_ZERO, 5) == [] == FlagsText(0, 5);
    assert FlagsText(F_ZERO, 4) == [] == FlagsText(0, 4);
    assert FlagsText(F_ZERO, 3) == [] == FlagsText(0, 3);
    assert FlagsText(F_ZERO, 2) == [] == FlagsText(0, 2);
    assert FlagsText(F_ZERO, 1) == ['0' as int] && FlagsText(0, 1) == [];
  }

  lemma SmallNumerals()
    ensures NumeralOf(1) == Ascii("1") && NumeralOf(2) == Ascii("2") && NumeralOf(3) == Ascii("3") && NumeralOf(4) == Ascii("4")
    ensures NumeralOf(5) == Ascii("5") && NumeralOf(6) == Ascii("6") && NumeralOf(7) == Ascii("7") && NumeralOf(8) == Ascii("8")
    ensures NumeralOf(12) == Ascii("12") && NumeralOf(16) == Ascii("16")
  {
    assert NumeralOf(1) == ['1' as int];
  }

  /** How the conversions are written */
  lemma AddressTexts()
    ensures Spelled(ADDRESS7) && Spelled(ADDRESS8) && Spelled(OCTAL_ADDRESS)
    ensures ItemText(ADDRESS7) == Ascii("%07.7_ax") && ItemText(ADDRESS8) == Ascii("%08.8_ax") && ItemText(OCTAL_ADDRESS) == Ascii("%07.7_ao")
  {
    hide FlagsText, NumeralOf;
    ZeroFlag();
    SmallNumerals();
  }

  lemma NumberTexts()
    ensures Spelled(NumberItem(BYTE_OCTAL)) && Spelled(NumberItem(WORD_DECIMAL)) && Spelled(NumberItem(WORD_OCTAL)) && Spelled(NumberItem(WORD_HEX))
    ensures ItemText(NumberItem(BYTE_OCTAL)) == Ascii("%03o") && ItemText(NumberItem(WORD_DECIMAL)) == Ascii("%05u")
    ensures ItemText(NumberItem(WORD_OCTAL)) == Ascii("%06o") && ItemText(NumberItem(WORD_HEX)) == Ascii("%04x")
  {
    hide FlagsText, NumeralOf;
    ZeroFlag();
    SmallNumerals();
  }

  lemma ByteTexts()
    ensures Spelled(HEX_BYTE) && Spelled(LABEL) && Spelled(PRINTABLE)
    ensures ItemText(HEX_BYTE) == Ascii("%02x") && ItemText(LABEL) == Ascii("%3_c") && ItemText(PRINTABLE) == Ascii("%_p")
  {
    hide FlagsText, NumeralOf;
    ZeroFlag();
    SmallNumerals();
  }

  lemma {:induction false} PlainBlanks(n: nat)
    ensures Plain(Spaces(n)) && BlankTail(Spaces(n)) == n
  {
    if n > 0 {
      PlainBlanks(n - 1);
      assert Spaces(n)[..n - 1] == Spaces(n - 1);
    }
  }

  lemma PlainTexts()
    ensures Plain([]) && Plain(Ascii("0x")) && Plain(Ascii(", ")) && Plain(Ascii("  |")) && Plain(Ascii("|"))
  {
    PlainChars(Ascii("0x"));
    PlainChars(Ascii(", "));
    PlainChars(Ascii("  |"));
    PlainChars(Ascii("|"));
  }

  /** Characters that need no escape */
  lemma PlainChars(text: seq<byte>)
    requires forall k :: 0 <= k < |text| ==> text[k] >= 0x20 && text[k] != PERCENT && text[k] != QUOTE && text[k] != BACKSLASH
    ensures Plain(text)
  {
  }

  lemma BlankTails()
    ensures BlankTail([]) == 0 && BlankTail(Ascii(", ")) == 1 && BlankTail(Ascii("  |")) == 0 && BlankTail([NEWLINE]) == 0
    ensures BlankTail(Ascii("|") + [NEWLINE]) == 0
  {
    assert Ascii(", ")[..1] == Ascii(",");
    assert BlankTail(Ascii(",")) == 0;
  }

  /** A unit without counts around one conversion */
  lemma AroundBare(lead: seq<byte>, item: Item, tail: seq<byte>)
    requires Plain(lead) && Plain(tail) && Spelled(item) && item.Conv? && CutItem(-1, 0, item) && 0 <= ItemBytes(item) <= 255
    ensures ReadsAs([QUOTE] + (lead + (ItemText(item) + tail) + [QUOTE]), Unit(1, false, Around(lead, item, tail), 0, BlankTail(tail)), false)
  {
    hide Plain, Spelled, CutItem, CutRight, ItemText, Around, BlankTail, ItemBytes, ItemsBytes, ReadsAs, Blanks, ItemsText;
    AroundText(lead, item, tail);
    AroundReads(lead, item, tail, -1);
    AroundBlanks(lead, item, tail);
    BareReads(Around(lead, item, tail), false);
  }

  /** A unit with both counts around one conversion */
  lemma AroundCounted(loop: nat, limit: nat, mark: bool, lead: seq<byte>, item: Item, tail: seq<byte>)
    requires Plain(lead) && Plain(tail) && Spelled(item) && item.Conv? && CutItem(limit, 0, item) && ItemBytes(item) == limit <= 255
    requires loop <= MAX_NUMBER
    ensures ReadsAs(CountText(loop, limit, mark) + ([QUOTE] + (lead + (ItemText(item) + tail) + [QUOTE])),
      Unit(loop, mark, Around(lead, item, tail), 0, BlankTail(tail)), false)
  {
    hide Plain, Spelled, CutItem, CutRight, ItemText, Around, BlankTail, ItemBytes, ItemsBytes, ReadsAs, Blanks, ItemsText, CountText;
    AroundText(lead, item, tail);
    AroundReads(lead, item, tail, limit);
    AroundBlanks(lead, item, tail);
    CountedReads(loop, limit, mark, Around(lead, item, tail));
  }

  /** A unit of characters alone */
  lemma LitsBare(text: seq<byte>, written: seq<byte>, nopad: bool)
    requires (forall k :: 0 <= k < |text| ==> Spelled(Lits(text)[k])) && ItemsText(Lits(text)) == written
    ensures ReadsAs([QUOTE] + (written + [QUOTE]), TextUnit(text, BlankTail(text), nopad), nopad)
  {
    hide Spelled, BlankTail, ItemsBytes, ReadsAs, Blanks, ItemsText, Lits;
    LitsReadNothing(text);
    NoBlanks();
    LitsBlanks([], text);
    assert [] + Lits(text) == Lits(text);
    NoConversions(text);
    BareReads(Lits(text), nopad);
  }

  lemma NoBlanks()
    ensures Blanks([]) == 0
  {
  }

  lemma NoConversions(text: seq<byte>)
    ensures CutRight(-1, Lits(text))
  {
  }

  lemma NewlineText()
    ensures (forall k :: 0 <= k < |[NEWLINE]| ==> Spelled(Lits([NEWLINE])[k])) && ItemsText(Lits([NEWLINE])) == Ascii("\\n")
  {
    assert Lits([NEWLINE]) == [Lit(NEWLINE)];
    OneText(Lit(NEWLINE));
  }

  lemma BarText()
    ensures forall k :: 0 <= k < |Ascii("|") + [NEWLINE]| ==> Spelled(Lits(Ascii("|") + [NEWLINE])[k])
    ensures ItemsText(Lits(Ascii("|") + [NEWLINE])) == Ascii("|\\n")
  {
    hide ItemsText, LitText;
    NewlineText();
    PlainTexts();
    PlainText(Ascii("|"));
    assert Lits(Ascii("|") + [NEWLINE]) == Lits(Ascii("|")) + Lits([NEWLINE]);
    TextJoin(Lits(Ascii("|")), Lits([NEWLINE]));
    assert Ascii("|") + Ascii("\\n") == Ascii("|\\n");
  }

  // ------------------------------------------------------ the units of the formats

  lemma CountTexts()
    ensures CountText(16, 1, false) == Ascii("16/1 ") && CountText(8, 2, false) == Ascii("8/2 ")
    ensures CountText(8, 1, false) == Ascii("8/1 ") && CountText(12, 1, true) == Ascii("12/1? ")
  {
    hide NumeralOf;
    SmallNumerals();
  }

  lemma OffsetReads()
    ensures ReadsAs(OFFSET, AddressUnit(ADDRESS7, 1), false)
    ensures ReadsAs(Ascii("\"%07.7_ao   \""), AddressUnit(OCTAL_ADDRESS, 3), false)
    ensures ReadsAs(Ascii("\"%08.8_ax  \""), AddressUnit(ADDRESS8, 2), false)
  {
    hide ReadsAs, Plain, Spelled, ItemText, BlankTail, Around;
    AddressTexts();
    PlainTexts();
    PlainBlanks(1);
    PlainBlanks(2);
    PlainBlanks(3);
    AroundBare([], ADDRESS7, Spaces(1));
    AroundBare([], OCTAL_ADDRESS, Spaces(3));
    AroundBare([], ADDRESS8, Spaces(2));
    assert OFFSET == [QUOTE] + ([] + (Ascii("%07.7_ax") + Spaces(1)) + [QUOTE]);
    assert Ascii("\"%07.7_ao   \"") == [QUOTE] + ([] + (Ascii("%07.7_ao") + Spaces(3)) + [QUOTE]);
    assert Ascii("\"%08.8_ax  \"") == [QUOTE] + ([] + (Ascii("%08.8_ax") + Spaces(2)) + [QUOTE]);
  }

  lemma NextLineReads(nopad: bool)
    ensures ReadsAs(NEXT_LINE, TextUnit([NEWLINE], 0, nopad), nopad)
  {
    hide ReadsAs, Spelled, ItemsText, BlankTail, TextUnit;
    NewlineText();
    BlankTails();
    LitsBare([NEWLINE], Ascii("\\n"), nopad);
    assert NEXT_LINE == [QUOTE] + (Ascii("\\n") + [QUOTE]);
  }

  lemma NumbersRead(k: NumberKind, n: nat, lead: nat, text: seq<byte>)
    requires Shown(k) && n <= MAX_NUMBER
    requires Spelled(NumberItem(k)) && text == CountText(n, k.bytes, false) + ([QUOTE] + (Spaces(lead) + (ItemText(NumberItem(k)) + Spaces(1)) + [QUOTE]))
    ensures ReadsAs(text, CellUnit(n, false, Spaces(lead), NumberItem(k), Spaces(1)), false)
  {
    hide ReadsAs, Plain, Spelled, ItemText, BlankTail, Around, CountText;
    PlainBlanks(lead);
    PlainBlanks(1);
    AroundCounted(n, k.bytes, false, Spaces(lead), NumberItem(k), Spaces(1));
  }

  lemma NumberUnitTexts()
    ensures Ascii("16/1 \"%03o \"") == Ascii("16/1 ") + ([QUOTE] + (Spaces(0) + (Ascii("%03o") + Spaces(1)) + [QUOTE]))
    ensures Ascii("8/2 \"  %05u \"") == Ascii("8/2 ") + ([QUOTE] + (Spaces(2) + (Ascii("%05u") + Spaces(1)) + [QUOTE]))
    ensures Ascii("8/2 \" %06o \"") == Ascii("8/2 ") + ([QUOTE] + (Spaces(1) + (Ascii("%06o") + Spaces(1)) + [QUOTE]))
    ensures Ascii("8/2 \"   %04x \"") == Ascii("8/2 ") + ([QUOTE] + (Spaces(3) + (Ascii("%04x") + Spaces(1)) + [QUOTE]))
  {
  }

  lemma NumberUnitsRead()
    ensures ReadsAs(Ascii("16/1 \"%03o \""), CellUnit(16, false, Spaces(0), NumberItem(BYTE_OCTAL), Spaces(1)), false)
    ensures ReadsAs(Ascii("8/2 \"  %05u \""), CellUnit(8, false, Spaces(2), NumberItem(WORD_DECIMAL), Spaces(1)), false)
    ensures ReadsAs(Ascii("8/2 \" %06o \""), CellUnit(8, false, Spaces(1), NumberItem(WORD_OCTAL), Spaces(1)), false)
    ensures ReadsAs(Ascii("8/2 \"   %04x \""), CellUnit(8, false, Spaces(3), NumberItem(WORD_HEX), Spaces(1)), false)
  {
    hide ReadsAs, Spelled, ItemText, CellUnit, CountText, NumberItem, Ascii, Spaces;
    NumberTexts();
    CountTexts();
    NumberUnitTexts();
    NumbersRead(BYTE_OCTAL, 16, 0, Ascii("16/1 \"%03o \""));
    NumbersRead(WORD_DECIMAL, 8, 2, Ascii("8/2 \"  %05u \""));
    NumbersRead(WORD_OCTAL, 8, 1, Ascii("8/2 \" %06o \""));
    NumbersRead(WORD_HEX, 8, 3, Ascii("8/2 \"   %04x \""));
  }

  lemma ByteUnitsRead()
    ensures ReadsAs(Ascii("16/1 \"%3_c \""), CellUnit(16, false, [], LABEL, Spaces(1)), false)
    ensures ReadsAs(Ascii("8/1 \"%02x \""), HEX_CELLS, false)
    ensures ReadsAs(Ascii("12/1? \"0x%02x, \""), LIST_CELLS, false)
    ensures ReadsAs(Ascii("16/1 \"%_p\""), PRINTABLE_CELLS, false)
  {
    hide ReadsAs, Plain, Spelled, ItemText, BlankTail, Around, CountText, CutItem;
    ByteTexts();
    CountTexts();
    PlainTexts();
    PlainBlanks(1);
    BlankTails();
    CutBytesRight();
    AroundCounted(16, 1, false, [], LABEL, Spaces(1));
    assert Ascii("16/1 \"%3_c \"") == Ascii("16/1 ") + ([QUOTE] + ([] + (Ascii("%3_c") + Spaces(1)) + [QUOTE]));
    AroundCounted(8, 1, false, [], HEX_BYTE, Spaces(1));
    assert Ascii("8/1 \"%02x \"") == Ascii("8/1 ") + ([QUOTE] + ([] + (Ascii("%02x") + Spaces(1)) + [QUOTE]));
    AroundCounted(12, 1, true, Ascii("0x"), HEX_BYTE, Ascii(", "));
    assert Ascii("12/1? \"0x%02x, \"") == Ascii("12/1? ") + ([QUOTE] + (Ascii("0x") + (Ascii("%02x") + Ascii(", ")) + [QUOTE]));
    AroundCounted(16, 1, false, [], PRINTABLE, []);
    assert Ascii("16/1 \"%_p\"") == Ascii("16/1 ") + ([QUOTE] + ([] + (Ascii("%_p") + []) + [QUOTE]));
  }

  lemma CutBytesRight()
    ensures CutItem(1, 0, LABEL) && CutItem(1, 0, HEX_BYTE) && CutItem(1, 0, PRINTABLE)
  {
  }

  lemma TextUnitsRead()
    ensures ReadsAs(Ascii("\"  \""), TextUnit(Spaces(2), 2, false), false)
    ensures ReadsAs(Ascii("\"  |\""), TextUnit(Ascii("  |"), 0, false), false)
    ensures ReadsAs(Ascii("\"|\\n\""), TextUnit(Ascii("|") + [NEWLINE], 0, false), false)
  {
    hide ReadsAs, Plain, Spelled, ItemsText, BlankTail, TextUnit;
    PlainTexts();
    PlainBlanks(2);
    BlankTails();
    BarText();
    PlainText(Spaces(2));
    LitsBare(Spaces(2), Spaces(2), false);
    assert Ascii("\"  \"") == [QUOTE] + (Spaces(2) + [QUOTE]);
    PlainText(Ascii("  |"));
    LitsBare(Ascii("  |"), Ascii("  |"), false);
    assert Ascii("\"  |\"") == [QUOTE] + (Ascii("  |") + [QUOTE]);
    LitsBare(Ascii("|") + [NEWLINE], Ascii("|\\n"), false);
    assert Ascii("\"|\\n\"") == [QUOTE] + (Ascii("|\\n") + [QUOTE]);
  }

  // ------------------------------------------------------------- the formats parse

  /** The options -b, -c, -C, -d, -i, -o and -x */
  datatype Format = OctalBytes | Characters | Canonical | Decimal | Include | OctalWords | HexWords

  function UnitTexts(f: Format): seq<seq<seq<byte>>> {
    match f
    case OctalBytes => TEXT_b
    case Characters => TEXT_c
    case Canonical => TEXT_C
    case Decimal => TEXT_d
    case Include => TEXT_i
    case OctalWords => TEXT_o
    case HexWords => TEXT_x
  }

  function ProgramOf(f: Format): Program {
    match f
    case OctalBytes => PROGRAM_b
    case Characters => PROGRAM_c
    case Canonical => PROGRAM_C
    case Decimal => PROGRAM_d
    case Include => PROGRAM_i
    case OctalWords => PROGRAM_o
    case HexWords => PROGRAM_x
  }

  /** The row of a block, by its bytes and its address */
  function RowOf(f: Format, bigEndian: bool): Row {
    match f
    case OctalBytes => Row_b(bigEndian)
    case Characters => Row_c()
    case Canonical => Row_C()
    case Decimal => Row_d(bigEndian)
    case Include => Row_i()
    case OctalWords => Row_o(bigEndian)
    case HexWords => Row_x(bigEndian)
  }

  function SizeOf(f: Format): nat { if f == Include then 12 else 16 }

  /** The text of the format */
  function TextOf(f: Format): seq<byte> { LinesText(UnitTexts(f)) }

  lemma ThreeRead(texts: seq<seq<byte>>, line: Line)
    requires |texts| == |line| == 3 && ReadsAs(texts[0], line[0], false) && ReadsAs(texts[1], line[1], line[0].nopad)
    requires ReadsAs(texts[2], line[2], line[1].nopad)
    ensures ReadsLine(texts, line, false)
  {
    hide ReadsAs, ReadsLine;
    assert texts == [texts[0]] + ([texts[1]] + ([texts[2]] + [])) && line == [line[0]] + ([line[1]] + ([line[2]] + []));
    NoneRead(line[2].nopad);
    OneMoreReads(texts[2], [], line[2], [], line[1].nopad);
    OneMoreReads(texts[1], [texts[2]] + [], line[1], [line[2]] + [], line[0].nopad);
    OneMoreReads(texts[0], [texts[1]] + ([texts[2]] + []), line[0], [line[1]] + ([line[2]] + []), false);
  }

  lemma NoneRead(nopad: bool)
    ensures ReadsLine([], [], nopad)
  {
  }

  lemma OneMoreReads(text: seq<byte>, texts: seq<seq<byte>>, u: Unit, line: Line, nopad: bool)
    requires ReadsAs(text, u, nopad) && ReadsLine(texts, line, u.nopad)
    ensures ReadsLine([text] + texts, [u] + line, nopad)
  {
    hide ReadsAs;
    assert ([text] + texts)[1..] == texts && ([u] + line)[1..] == line;
  }

  lemma CanonicalReads()
    ensures ReadsLine(TEXT_C[0], PROGRAM_C[0], false) && ReadsLine(TEXT_C[1], PROGRAM_C[1], false)
  {
    hide ReadsAs, Ascii, ReadsLine;
    OffsetReads();
    ByteUnitsRead();
    TextUnitsRead();
    ThreeRead(TEXT_C[1], PROGRAM_C[1]);
    var texts, line := TEXT_C[0], PROGRAM_C[0];
    var t, l := [texts[1], texts[2], texts[3]], [line[1], line[2], line[3]];
    ThreeRead(t, l);
    OneMoreReads(texts[0], t, line[0], l, false);
    assert texts == [texts[0]] + t && line == [line[0]] + l;
  }

  lemma TableReads(f: Format)
    requires f != Canonical
    ensures |UnitTexts(f)| == |ProgramOf(f)| == 1 && ReadsLine(UnitTexts(f)[0], ProgramOf(f)[0], false)
  {
    hide ReadsAs, Ascii, CellUnit, AddressUnit, NumberItem, ReadsLine, OFFSET, NEXT_LINE;
    OffsetReads();
    NumberUnitsRead();
    ByteUnitsRead();
    TextUnitsRead();
    NextLineReads(false);
    NextLineReads(true);
    Marks();
    ThreeRead(UnitTexts(f)[0], ProgramOf(f)[0]);
  }

  lemma Marks()
    ensures !AddressUnit(ADDRESS7, 1).nopad && !AddressUnit(OCTAL_ADDRESS, 3).nopad && LIST_CELLS.nopad
    ensures !CellUnit(16, false, Spaces(0), NumberItem(BYTE_OCTAL), Spaces(1)).nopad && !CellUnit(16, false, [], LABEL, Spaces(1)).nopad
    ensures !CellUnit(8, false, Spaces(2), NumberItem(WORD_DECIMAL), Spaces(1)).nopad
    ensures !CellUnit(8, false, Spaces(1), NumberItem(WORD_OCTAL), Spaces(1)).nopad
    ensures !CellUnit(8, false, Spaces(3), NumberItem(WORD_HEX), Spaces(1)).nopad
  {
  }

  lemma TextsAreShort(f: Format)
    ensures |TextOf(f)| <= 100
  {
    hide Ascii, Joined;
    var texts := UnitTexts(f);
    if f == Canonical {
      FourJoined(texts[0]);
      ThreeJoined(texts[1]);
      assert texts[1..] == [texts[1]];
      assert LinesText([texts[1]]) == Joined(texts[1], BLANK);
    } else {
      ThreeJoined(texts[0]);
    }
  }

  lemma ThreeJoined(texts: seq<seq<byte>>)
    requires |texts| == 3
    ensures |Joined(texts, BLANK)| == |texts[0]| + |texts[1]| + |texts[2]| + 2
  {
    assert Joined(texts[1..][1..], BLANK) == texts[2];
    assert Joined(texts[1..], BLANK) == texts[1] + ([BLANK] + texts[2]);
  }

  lemma FourJoined(texts: seq<seq<byte>>)
    requires |texts| == 4
    ensures |Joined(texts, BLANK)| == |texts[0]| + |texts[1]| + |texts[2]| + |texts[3]| + 3
  {
    ThreeJoined(texts[1..]);
  }

  /** hxd_compile makes of each predefined format its program, which fits the code array. */
  lemma PredefinedParses(f: Format)
    ensures 0 !in TextOf(f) && |TextOf(f)| <= 100 && Parse(TextOf(f), false) == Parsed(ProgramOf(f), |TextOf(f)|)
    ensures |LinesCode(ProgramOf(f))| < CODE_LIMIT && BlockSize(ProgramOf(f)) == SizeOf(f)
  {
    hide Parse, LinesText, ReadsLine, LinesCode, BlockSize;
    TextsAreShort(f);
    TablesFit();
    CanonicalFits();
    if f == Canonical { CanonicalReads(); } else { TableReads(f); }
    FormatReads(UnitTexts(f), ProgramOf(f));
  }

  /** Its program prints its row for every block. */
  lemma PredefinedRows(f: Format, bigEndian: bool, printf: Printf)
    requires FullPrintf(printf)
    ensures WritesRows(ProgramOf(f), bigEndian, printf, SizeOf(f), RowOf(f, bigEndian))
  {
    hide WritesRows, FullPrintf;
    RowsOfNumbers(bigEndian, printf);
    RowsOfBytes(bigEndian, printf);
  }

  /** From the text of a predefined format to its output: a context opened, compiled and fed in any
      calls, then flushed, has printed a row for every 16 bytes, or 12, of its input and a short one
      for the rest, and nothing else. */
  method DumpPredefined(f: Format, bigEndian: bool, printf: Printf, calls: seq<Call>) returns (compiled: Status, r: Status, text: seq<byte>)
    requires FullPrintf(printf) && forall k :: 0 <= k < |calls| ==> !calls[k].Flush?
    ensures compiled == r == Ok
    ensures text == Rows(RowOf(f, bigEndian), HexdumpStream.Written(calls), SizeOf(f), 0)
  {
    hide Parse, LinesCode, BlockSize, Cut, Feed, After, WritesRows, FullPrintf, RowOf, TextOf, ProgramOf, Rows, ValidProgram;
    PredefinedParses(f);
    PredefinedRows(f, bigEndian, printf);
    ParseValid(TextOf(f), false);
    var h;
    h, compiled, r, text := Dump(TextOf(f), false, bigEndian, printf, calls + [Flush]);
    ghost var cfg := Config(ProgramOf(f), bigEndian, printf, SLOTS, 0);
    FlushedRows(cfg, SizeOf(f), calls, RowOf(f, bigEndian));
    NothingFed(cfg.(base := After(cfg, SizeOf(f), calls + [Flush]).base), SizeOf(f));
    assert Rows(RowOf(f, bigEndian), HexdumpStream.Written(calls), SizeOf(f), 0) + [] == Rows(RowOf(f, bigEndian), HexdumpStream.Written(calls), SizeOf(f), 0);
    text := text + h.obuf;
  }
}
