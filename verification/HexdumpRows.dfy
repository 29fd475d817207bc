/** Formats that print a row for each block: what their units write, and the rows of a whole input. */
module HexdumpRows {
  import opened Arithmetic

  import opened HexdumpMachine
  import opened HexdumpFormat
  import opened HexdumpReference
  import opened HexdumpBlocks
  import opened HexdumpStream

  // --------------------------------------------------------- literals and cells

  function Lits(text: seq<byte>): (r: seq<Item>)
    ensures |r| == |text|
  {
    seq(|text|, i requires 0 <= i < |text| => Lit(text[i]))
  }

  /** The items a and then the items b */
  lemma {:induction false} ItemsJoin(su: Setup, a: seq<Item>, b: seq<Item>, s: State)
    requires Inside(su, s)
    ensures DoItems(su, COMPILED, a + b, s)
      == var r := DoItems(su, COMPILED, a, s); if r.Fine? then DoItems(su, COMPILED, b, r.s) else r
    decreases |b|
  {
    hide DoItem;
    if b == [] {
      assert a + b == a;
    } else {
      assert (a + b)[..|a + b| - 1] == a + b[..|b| - 1];
      ItemsJoin(su, a, b[..|b| - 1], s);
    }
  }

  lemma {:induction false} LitsShow(su: Setup, text: seq<byte>, s: State)
    requires Inside(su, s)
    ensures DoItems(su, COMPILED, Lits(text), s) == Fine(State(s.inp, s.out + text))
    decreases |text|
  {
    if text == [] {
      assert s.out + text == s.out;
    } else {
      var n := |text| - 1;
      LitsShow(su, text[..n], s);
      assert Lits(text)[..n] == Lits(text[..n]);
      assert s.out + text[..n] + [text[n]] == s.out + text;
    }
  }

  /** A conversion between literals */
  function Around(lead: seq<byte>, item: Item, tail: seq<byte>): seq<Item> {
    Lits(lead) + ([item] + Lits(tail))
  }

  lemma OneItem(su: Setup, item: Item, s: State)
    requires Inside(su, s)
    ensures DoItems(su, COMPILED, [item], s) == DoItem(su, COMPILED, item, s)
  {
    hide DoItem;
    assert [item][..0] == [];
    assert DoItems(su, COMPILED, [], s) == Fine(s);
  }

  lemma AroundShows(su: Setup, lead: seq<byte>, item: Item, tail: seq<byte>, s: State, inp: nat, text: seq<byte>)
    requires Inside(su, s) && inp <= |su.block|
    requires DoItem(su, COMPILED, item, State(s.inp, s.out + lead)) == Fine(State(inp, s.out + lead + text))
    ensures DoItems(su, COMPILED, Around(lead, item, tail), s) == Fine(State(inp, s.out + (lead + text + tail)))
  {
    hide DoItem, DoItems, Lits;
    ItemsJoin(su, Lits(lead), [item] + Lits(tail), s);
    LitsShow(su, lead, s);
    var s1 := State(s.inp, s.out + lead);
    ItemsJoin(su, [item], Lits(tail), s1);
    OneItem(su, item, s1);
    LitsShow(su, tail, State(inp, s.out + lead + text));
    assert s.out + lead + text + tail == s.out + (lead + text + tail);
  }

  /** The cells 0 to n - 1, one after the other */
  function Cells(cell: nat -> seq<byte>, n: nat): seq<byte> {
    if n == 0 then [] else Cells(cell, n - 1) + cell(n - 1)
  }

  /** The cells with blanks between them */
  function Spaced(cell: nat -> seq<byte>, n: nat): seq<byte> {
    if n == 0 then [] else if n == 1 then cell(0) else Spaced(cell, n - 1) + [' ' as int] + cell(n - 1)
  }

  /** Chopping the blank behind the last cell leaves the blanks between the cells. */
  lemma {:induction false} SpacedCells(cell: nat -> seq<byte>, wide: nat -> seq<byte>, n: nat)
    requires n >= 1 && forall i: nat :: i < n ==> wide(i) == cell(i) + [' ' as int]
    ensures Cells(wide, n) == Spaced(cell, n) + [' ' as int]
  {
    if n == 1 {
      assert Cells(wide, 0) == [];
      assert [] + wide(0) == wide(0);
    } else {
      SpacedCells(cell, wide, n - 1);
      assert Spaced(cell, n) + [' ' as int] == Spaced(cell, n - 1) + [' ' as int] + (cell(n - 1) + [' ' as int]);
    }
  }

  lemma ChopBlank(out: seq<byte>, text: seq<byte>)
    ensures Chop(out + (text + [' ' as int]), 1) == out + text
  {
  }

  /** Repetition i of the unit starts at at(i) and writes cell(i). */
  ghost predicate WritesCells(su: Setup, u: Unit, at: nat -> nat, cell: nat -> seq<byte>, n: nat) {
    && (forall i: nat :: i <= n ==> at(i) <= |su.block|)
    && forall i: nat, out: seq<byte> :: i < n ==> CellWritten(su, u, at, cell, i, out)
  }

  predicate CellWritten(su: Setup, u: Unit, at: nat -> nat, cell: nat -> seq<byte>, i: nat, out: seq<byte>) {
    && at(i) <= |su.block|
    && (u.nopad ==> |su.block| - at(i) >= Consumes(u))
    && DoOnce(su, COMPILED, u, State(at(i), out)) == Fine(State(at(i + 1), out + cell(i)))
  }

  /** A unit that is repeated n times, or is marked ? and has too little input for more */
  lemma {:induction false} CellsShow(su: Setup, u: Unit, at: nat -> nat, cell: nat -> seq<byte>, n: nat, c: nat, out: seq<byte>)
    requires c <= n <= u.loop < 0x1_0000 && WritesCells(su, u, at, cell, n)
    requires n == u.loop || (u.nopad && |su.block| - at(n) < Consumes(u))
    ensures Inside(su, State(at(c), [])) && Inside(su, State(at(n), []))
    ensures Repeat(su, COMPILED, u, c, State(at(c), out + Cells(cell, c))) == Fine(State(at(n), out + Cells(cell, n)))
    decreases n - c
  {
    hide DoOnce;
    if c < n {
      assert CellWritten(su, u, at, cell, c, out + Cells(cell, c));
      assert out + Cells(cell, c) + cell(c) == out + Cells(cell, c + 1);
      CellsShow(su, u, at, cell, n, c + 1, out);
    }
  }

  /** A unit that is not repeated */
  lemma SingleShows(su: Setup, items: seq<Item>, chop: nat, nopad: bool, s: State, out: seq<byte>)
    requires Inside(su, s) && DoItems(su, COMPILED, items, s) == Fine(State(s.inp, out))
    requires nopad ==> ItemsBytes(items) == 0
    ensures DoUnit(su, COMPILED, Unit(1, nopad, items, 0, chop), s) == Fine(State(s.inp, out))
  {
    hide DoItems, ItemsBytes;
    var u := Unit(1, nopad, items, 0, chop);
    var t := State(s.inp, out);
    assert DoOnce(su, COMPILED, u, s) == Fine(t);
    assert Repeat(su, COMPILED, u, 1, t) == Fine(t);
  }

  lemma UnitsMore(su: Setup, line: Line, u: Unit, s: State, t: State)
    requires Inside(su, s) && Inside(su, t) && DoUnits(su, COMPILED, line, s) == Fine(t)
    ensures DoUnits(su, COMPILED, line + [u], s) == DoUnit(su, COMPILED, u, t)
  {
    hide DoUnit;
    assert (line + [u])[..|line|] == line;
  }

  // ------------------------------------------------------------------- the rows

  type Row = (seq<byte>, nat) -> seq<byte>

  /** Every block of the input shows as a row, the last one short. */
  function Rows(row: Row, data: seq<byte>, size: nat, address: nat): seq<byte>
    requires size > 0
    decreases |data|
  {
    if data == [] then []
    else
      var n := Min(size, |data|);
      row(data[..n], address) + Rows(row, data[n..], size, address + n)
  }

  predicate RowShows(su: Setup, prog: Program, row: Row, out: seq<byte>) {
    var r := DoLines(su, COMPILED, prog, State(0, out));
    r.Fine? && r.s.out == out + row(su.block, su.address)
  }

  /** The program writes the row of every block, whatever is in front of it. */
  ghost predicate WritesRows(prog: Program, bigEndian: bool, printf: Printf, size: nat, row: Row) {
    forall su: Setup, out: seq<byte> :: su.bigEndian == bigEndian && su.printf == printf && 0 < |su.block| <= size
      ==> RowShows(su, prog, row, out)
  }

  /** Such a program chops nothing that was there before. */
  lemma RowRobsNothing(su: Setup, prog: Program, size: nat, row: Row)
    requires ValidProgram(prog) && WritesRows(prog, su.bigEndian, su.printf, size, row) && 0 < |su.block| <= size
    ensures !ProgramRobs(su, prog, State(0, []))
  {
    hide ProgramRobs, DoLines, ValidProgram;
    var s := State(0, []);
    BlockShiftsExactly(su, prog, []);
    assert RowShows(su, prog, row, []);
    forall pre
      ensures DoLines(su, COMPILED, prog, Behind(pre, s)).s.out == pre + DoLines(su, COMPILED, prog, s).s.out
      ensures DoLines(su, COMPILED, prog, Behind(pre, s)).Fine?
    {
      assert RowShows(su, prog, row, pre);
      assert Behind(pre, s) == State(0, pre) by { assert pre + [] == pre; }
      assert [] + row(su.block, su.address) == row(su.block, su.address);
    }
    if ProgramRobs(su, prog, s) {
      ProgramExactly(su, prog, [0], s);
    }
  }

  function BlockRows(row: Row, blocks: seq<seq<byte>>, size: nat, base: nat): seq<byte> {
    if blocks == [] then []
    else
      var k := |blocks| - 1;
      BlockRows(row, blocks[..k], size, base) + row(blocks[k], base + AddressOf(k, size))
  }

  lemma {:induction false} RowsFront(row: Row, b: seq<byte>, rest: seq<seq<byte>>, size: nat, base: nat)
    ensures BlockRows(row, [b] + rest, size, base) == row(b, base) + BlockRows(row, rest, size, base + size)
    decreases |rest|
  {
    var k := |rest|;
    if k == 0 {
      assert ([b] + rest)[..0] == [] && [b] + rest == [b];
      assert row(b, base) + [] == row(b, base) == [] + row(b, base);
    } else {
      RowsFront(row, b, rest[..k - 1], size, base);
      assert ([b] + rest)[..k] == [b] + rest[..k - 1];
      NextAddress(k - 1, size);
      assert base + AddressOf(k, size) == base + size + AddressOf(k - 1, size);
      var x, y, z := row(b, base), BlockRows(row, rest[..k - 1], size, base + size), row(rest[k - 1], base + AddressOf(k, size));
      assert x + y + z == x + (y + z);
    }
  }

  function LastRow(row: Row, c: Cutting, size: nat, base: nat): seq<byte> {
    if c.rest == [] then [] else row(c.rest, base + AddressOf(|c.blocks|, size))
  }

  lemma ShortRow(row: Row, data: seq<byte>, size: nat, base: nat)
    requires |data| < size
    ensures var c := Cut(data, size); Rows(row, data, size, base) == BlockRows(row, c.blocks, size, base) + LastRow(row, c, size, base)
  {
    NoAddress(size);
    if data != [] {
      assert data[..|data|] == data && data[|data|..] == [];
      assert row(data, base) + [] == row(data, base) == [] + row(data, base);
    }
  }

  /** The rows of the whole blocks, and that of the rest */
  lemma {:induction false} RowsOfCut(row: Row, data: seq<byte>, size: nat, base: nat)
    requires size > 0
    ensures var c := Cut(data, size); Rows(row, data, size, base) == BlockRows(row, c.blocks, size, base) + LastRow(row, c, size, base)
    decreases |data|
  {
    hide AddressOf, Rows, Cut, BlockRows;
    if |data| < size {
      ShortRow(row, data, size, base);
    } else {
      var d := Cut(data[size..], size);
      RowsOfCut(row, data[size..], size, base + size);
      RowsFront(row, data[..size], d.blocks, size, base);
      NextAddress(|d.blocks|, size);
      CutFront(data, size);
      RowsStep(row, data, size, base);
      Regroup(row(data[..size], base), BlockRows(row, d.blocks, size, base + size), LastRow(row, d, size, base + size));
    }
  }

  lemma CutFront(data: seq<byte>, size: nat)
    requires 0 < size <= |data|
    ensures var d := Cut(data[size..], size);
      Cut(data, size) == Cutting([data[..size]] + d.blocks, d.rest) && |[data[..size]] + d.blocks| == |d.blocks| + 1
  {
  }

  lemma RowsStep(row: Row, data: seq<byte>, size: nat, base: nat)
    requires 0 < size <= |data|
    ensures Rows(row, data, size, base) == row(data[..size], base) + Rows(row, data[size..], size, base + size)
  {
  }

  lemma Regroup(x: seq<byte>, y: seq<byte>, z: seq<byte>)
    ensures x + (y + z) == x + y + z
  {
  }

  lemma NoAddress(size: nat)
    ensures AddressOf(0, size) == 0
  {
  }

  lemma {:induction false} FeedRows(cfg: Config, blocks: seq<seq<byte>>, size: nat, row: Row)
    requires ValidProgram(cfg.prog) && |LinesCode(cfg.prog)| < CODE_SIZE && size > 0
    requires WritesRows(cfg.prog, cfg.bigEndian, cfg.printf, size, row) && forall k :: 0 <= k < |blocks| ==> |blocks[k]| == size
    ensures var r := Feed(cfg, blocks, size); r.Fine? && r.s.out == BlockRows(row, blocks, size, cfg.base)
    ensures !FeedRobs(cfg, blocks, size)
  {
    hide DoLines, ValidProgram, LinesCode, Image, AddressOf, ProgramRobs;
    if blocks != [] {
      var k := |blocks| - 1;
      FeedRows(cfg, blocks[..k], size, row);
      var su := SetupFor(cfg, blocks[k], cfg.base + AddressOf(k, size));
      assert RowShows(su, cfg.prog, row, Feed(cfg, blocks[..k], size).s.out);
      RowRobsNothing(su, cfg.prog, size, row);
    }
  }

  /** What a flush makes of the input since the start of the stream */
  lemma FlushShows(cfg: Config, size: nat, data: seq<byte>, row: Row)
    requires ValidProgram(cfg.prog) && |LinesCode(cfg.prog)| < CODE_SIZE && size > 0 && cfg.base == 0
    requires WritesRows(cfg.prog, cfg.bigEndian, cfg.printf, size, row) && Feed(cfg, Cut(data, size).blocks, size).Fine?
    ensures var r := Flushed(cfg, size, [], data); r.Going? && r.fed == [] && r.lead == Rows(row, data, size, 0)
  {
    hide Cut, Feed, FeedRobs, BlockRobs, DoLines, ValidProgram, LinesCode, Image, AddressOf, ProgramRobs, Rows, BlockRows, WritesRows;
    var c := Cut(data, size);
    FeedRows(cfg, c.blocks, size, row);
    RowsOfCut(row, data, size, 0);
    var all := Feed(cfg, c.blocks, size).s.out;
    assert [] + all == all == all + [];
    if c.rest != [] {
      RestShows(cfg, c.rest, AddressOf(|c.blocks|, size), size, row);
    }
  }

  lemma RestShows(cfg: Config, block: seq<byte>, address: nat, size: nat, row: Row)
    requires ValidProgram(cfg.prog) && |LinesCode(cfg.prog)| < CODE_SIZE && 0 < |block| <= size
    requires WritesRows(cfg.prog, cfg.bigEndian, cfg.printf, size, row)
    ensures !BlockRobs(cfg, block, address)
    ensures var r := DoLines(SetupFor(cfg, block, address), COMPILED, cfg.prog, State(0, [])); r.Fine? && r.s.out == row(block, address)
  {
    hide ProgramRobs, DoLines, ValidProgram, LinesCode, Image;
    RestRobsNothing(cfg, block, address, size, row);
    var su := SetupFor(cfg, block, address);
    assert RowShows(su, cfg.prog, row, []);
    assert [] + row(block, address) == row(block, address);
  }

  lemma OneMoreCall(cfg: Config, size: nat, calls: seq<Call>, call: Call)
    requires size > 0 && |LinesCode(cfg.prog)| < CODE_SIZE && cfg.base == 0 && After(cfg, size, calls).Going? && After(cfg, size, calls).base == 0
    ensures Feed(cfg, Cut(After(cfg, size, calls).fed, size).blocks, size).Fine?
    ensures var r := After(cfg, size, calls); After(cfg, size, calls + [call]) == Onward(cfg, size, r.lead, r.fed, call)
  {
    hide Onward, Feed, Cut, LinesCode;
    assert (calls + [call])[..|calls|] == calls && cfg.(base := 0) == cfg;
  }

  /** After any writes and reads, a flush leaves the rows of everything that was written. */
  lemma FlushedRows(cfg: Config, size: nat, calls: seq<Call>, row: Row)
    requires ValidProgram(cfg.prog) && |LinesCode(cfg.prog)| < CODE_SIZE && size > 0 && cfg.base == 0
    requires WritesRows(cfg.prog, cfg.bigEndian, cfg.printf, size, row) && forall k :: 0 <= k < |calls| ==> !calls[k].Flush?
    ensures var r := After(cfg, size, calls + [Flush]);
      r.Going? && r.fed == [] && r.lead == Rows(row, Written(calls), size, 0)
  {
    hide Cut, Feed, FeedRobs, ValidProgram, LinesCode, Rows, BlockRows, WritesRows, After, Flushed;
    var data := Written(calls);
    FeedRows(cfg, Cut(data, size).blocks, size, row);
    AfterWrites(cfg, size, calls);
    OneMoreCall(cfg, size, calls, Flush);
    FlushShows(cfg, size, data, row);
  }

  lemma RestRobsNothing(cfg: Config, block: seq<byte>, address: nat, size: nat, row: Row)
    requires ValidProgram(cfg.prog) && |LinesCode(cfg.prog)| < CODE_SIZE && 0 < |block| <= size
    requires WritesRows(cfg.prog, cfg.bigEndian, cfg.printf, size, row)
    ensures !BlockRobs(cfg, block, address)
  {
    hide ProgramRobs, DoLines, ValidProgram, LinesCode, Image;
    RowRobsNothing(SetupFor(cfg, block, address), cfg.prog, size, row);
  }
}
