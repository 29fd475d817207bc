/** A stream of blocks: what each block adds to the output, whatever came before it. */
module HexdumpBlocks {
  import opened Arithmetic

  import opened HexdumpMachine
  import opened HexdumpFormat
  import opened HexdumpReference
  import opened HexdumpParser
  import opened HexdumpRender
  import opened HexdumpCorrect

  // --------------------------------------------- a unit reads what it accounts for

  /** A repetition count in front of blanks to chop does not load as zero. */
  predicate CountLoads(u: Unit) {
    u.loop > 1 && u.chop > 0 ==> Loaded(u.loop) >= 1
  }

  predicate CountsLoad(prog: Program) {
    forall i, j :: 0 <= i < |prog| && 0 <= j < |prog[i]| ==> CountLoads(prog[i][j])
  }

  predicate Reads(before: State, r: Result, n: int) {
    r.Fine? ==> before.inp <= r.s.inp <= before.inp + n
  }

  lemma LoadedLess(i: nat)
    ensures Loaded(i) <= i
  {
  }

  lemma ItemReads(su: Setup, item: Item, s: State)
    requires Inside(su, s) && ValidItem(item)
    ensures Reads(s, DoItem(su, COMPILED, item, s), ItemBytes(item))
  {
    hide VmConv, LoadWord;
    if item.Conv? {
      LoadedLess(ReadBytes(item));
    }
  }

  lemma {:induction false} ItemsRead(su: Setup, items: seq<Item>, s: State)
    requires Inside(su, s) && forall k :: 0 <= k < |items| ==> ValidItem(items[k])
    ensures Reads(s, DoItems(su, COMPILED, items, s), ItemsBytes(items))
  {
    hide DoItem, ValidItem;
    if items != [] {
      var front, last := items[..|items| - 1], items[|items| - 1];
      ItemsRead(su, front, s);
      var r := DoItems(su, COMPILED, front, s);
      if r.Fine? {
        ItemReads(su, last, r.s);
      }
    }
  }

  lemma OnceReads(su: Setup, u: Unit, s: State)
    requires Inside(su, s) && ValidUnit(u)
    ensures Reads(s, DoOnce(su, COMPILED, u, s), Consumes(u))
  {
    hide DoItems;
    ItemsRead(su, u.items, s);
    LoadedLess(u.skip);
  }

  /** All repetitions together read no more than the unit size times their number. */
  lemma {:induction false} RepeatReads(su: Setup, u: Unit, c: nat, s: State)
    requires Inside(su, s) && ValidUnit(u) && c <= u.loop
    ensures Reads(s, Repeat(su, COMPILED, u, c, s), Consumes(u) * (u.loop - c))
    decreases u.loop - c
  {
    hide DoOnce, Consumes, ValidUnit, Loaded;
    LoadedLess(u.loop);
    ConsumesIsNat(u);
    OnceMore(Consumes(u), u.loop - c);
    if c < Loaded(u.loop) {
      OnceReads(su, u, s);
      var r := DoOnce(su, COMPILED, u, s);
      if r.Fine? {
        RepeatReads(su, u, c + 1, r.s);
      }
    }
  }

  lemma OnceMore(n: nat, times: nat)
    ensures n * times >= 0 && (times >= 1 ==> n * times == n + n * (times - 1) && n * (times - 1) >= 0)
  {
  }

  // -------------------------------------- output does not depend on what precedes it

  function Shift(pre: seq<byte>, r: Result): Result {
    match r
    case Fine(s) => Fine(State(s.inp, pre + s.out))
    case Fault(e, s) => Fault(e, State(s.inp, pre + s.out))
  }

  function Behind(pre: seq<byte>, s: State): State { State(s.inp, pre + s.out) }

  /** r only added to the output of s. */
  predicate Adds(s: State, r: Result, n: int) {
    r.Fine? ==> |r.s.out| >= |s.out| + n
  }

  lemma ItemShifts(su: Setup, item: Item, pre: seq<byte>, s: State)
    requires Inside(su, s)
    ensures DoItem(su, COMPILED, item, Behind(pre, s)) == Shift(pre, DoItem(su, COMPILED, item, s))
    ensures Adds(s, DoItem(su, COMPILED, item, s), if item.Lit? then 1 else 0)
  {
    hide VmConv, LoadWord, Addr7, Addr8, HexByte;
    AppendAssoc(pre, s.out);
  }

  lemma AppendAssoc(pre: seq<byte>, out: seq<byte>)
    ensures forall b: seq<byte> :: (pre + out) + b == pre + (out + b)
  {
  }

  lemma {:induction false} ItemsShift(su: Setup, items: seq<Item>, chop: nat, pre: seq<byte>, s: State)
    requires Inside(su, s) && EndsInBlanks(items, chop)
    ensures DoItems(su, COMPILED, items, Behind(pre, s)) == Shift(pre, DoItems(su, COMPILED, items, s))
    ensures Adds(s, DoItems(su, COMPILED, items, s), chop)
  {
    hide DoItem;
    if items != [] {
      var front, last := items[..|items| - 1], items[|items| - 1];
      ItemsShift(su, front, if chop > 0 then chop - 1 else 0, pre, s);
      var r := DoItems(su, COMPILED, front, s);
      if r.Fine? {
        ItemShifts(su, last, pre, r.s);
      }
    }
  }

  lemma OnceShifts(su: Setup, u: Unit, pre: seq<byte>, s: State)
    requires Inside(su, s) && EndsInBlanks(u.items, u.chop)
    ensures DoOnce(su, COMPILED, u, Behind(pre, s)) == Shift(pre, DoOnce(su, COMPILED, u, s))
    ensures Adds(s, DoOnce(su, COMPILED, u, s), u.chop)
  {
    hide DoItems;
    ItemsShift(su, u.items, u.chop, pre, s);
  }

  lemma {:induction false} RepeatShifts(su: Setup, u: Unit, c: nat, pre: seq<byte>, s: State)
    requires Inside(su, s) && EndsInBlanks(u.items, u.chop)
    ensures Repeat(su, COMPILED, u, c, Behind(pre, s)) == Shift(pre, Repeat(su, COMPILED, u, c, s))
    ensures Adds(s, Repeat(su, COMPILED, u, c, s), 0)
    ensures Adds(s, Repeat(su, COMPILED, u, c, s),
      if c < Loaded(u.loop) && !(u.nopad && |su.block| - s.inp < Consumes(u)) then u.chop else 0)
    decreases Loaded(u.loop) - c
  {
    hide DoOnce, Consumes, EndsInBlanks, Loaded;
    OnceShifts(su, u, pre, s);
    if c < Loaded(u.loop) {
      var r := DoOnce(su, COMPILED, u, s);
      if r.Fine? {
        RepeatShifts(su, u, c + 1, pre, r.s);
      }
    }
  }

  lemma ChopBehind(pre: seq<byte>, out: seq<byte>, n: int)
    requires n <= |out|
    ensures Chop(pre + out, n) == pre + Chop(out, n)
  {
  }

  /** No repetition is run: the count loads as zero, or too little input is left for a unit
      marked ?. */
  predicate Skipped(su: Setup, u: Unit, s: State) {
    Loaded(u.loop) < 1 || (u.nopad && |su.block| - s.inp < Consumes(u))
  }

  /** OP_CHOP takes back more than the block has written: no repetition is run, the blanks of one
      are chopped all the same, and the output of the block so far is shorter. */
  predicate Robs(su: Setup, u: Unit, s: State) {
    u.loop > 1 && Skipped(su, u, s) && |s.out| < Loaded(u.chop)
  }

  predicate LineRobs(su: Setup, line: Line, s: State)
    requires Inside(su, s)
  {
    line != [] &&
    var front := DoUnits(su, COMPILED, line[..|line| - 1], s);
    LineRobs(su, line[..|line| - 1], s) || (front.Fine? && Robs(su, line[|line| - 1], front.s))
  }

  predicate ProgramRobs(su: Setup, prog: Program, s: State)
    requires Inside(su, s)
  {
    prog != [] &&
    var front := DoLines(su, COMPILED, prog[..|prog| - 1], s);
    ProgramRobs(su, prog[..|prog| - 1], s) || (front.Fine? && LineRobs(su, prog[|prog| - 1], State(0, front.s.out)))
  }

  /** r is r0 behind pre, but bytes of it are missing. */
  predicate Missing(pre: seq<byte>, r: Result, r0: Result) {
    && (r.Fine? <==> r0.Fine?) && (r.Fault? ==> r0.Fault? && r.error == r0.error)
    && r.s.inp == r0.s.inp && |r.s.out| < |pre| + |r0.s.out|
  }

  lemma UnitExactly(su: Setup, u: Unit, pre: seq<byte>, s: State)
    requires Inside(su, s) && ValidUnit(u) && pre != []
    ensures var r, r0 := DoUnit(su, COMPILED, u, Behind(pre, s)), DoUnit(su, COMPILED, u, s);
      if Robs(su, u, s) then Missing(pre, r, r0) else r == Shift(pre, r0)
  {
    assert EndsInBlanks(u.items, u.chop);
    hide ValidUnit, EndsInBlanks, Consumes, Loaded, DoOnce;
    RepeatShifts(su, u, 0, pre, s);
    var r := Repeat(su, COMPILED, u, 0, s);
    LoadedLess(u.chop);
    LoadedNat(u.chop);
    if Skipped(su, u, s) { assert r == Fine(s); }
    if r.Fine? && u.loop > 1 && Loaded(u.chop) <= |r.s.out| {
      hide Repeat;
      ChopBehind(pre, r.s.out, Loaded(u.chop));
    }
  }

  /** What is missing stays missing. */
  lemma UnitKeepsMissing(su: Setup, u: Unit, pre: seq<byte>, t: State, s: State)
    requires Inside(su, s) && ValidUnit(u) && pre != [] && Missing(pre, Fine(t), Fine(s))
    ensures Missing(pre, DoUnit(su, COMPILED, u, t), DoUnit(su, COMPILED, u, s))
  {
    assert EndsInBlanks(u.items, u.chop);
    hide ValidUnit, EndsInBlanks, Loaded, Repeat;
    var base := State(s.inp, []);
    assert Behind(t.out, base) == t && Behind(s.out, base) == s;
    RepeatShifts(su, u, 0, t.out, base);
    RepeatShifts(su, u, 0, s.out, base);
    LoadedNat(u.chop);
  }

  lemma {:induction false} LineExactly(su: Setup, line: Line, pre: seq<byte>, t: State, s: State)
    requires Inside(su, s) && pre != [] && (forall j :: 0 <= j < |line| ==> ValidUnit(line[j]))
    requires t == Behind(pre, s) || Missing(pre, Fine(t), Fine(s))
    ensures var r, r0 := DoUnits(su, COMPILED, line, t), DoUnits(su, COMPILED, line, s);
      if t == Behind(pre, s) && !LineRobs(su, line, s) then r == Shift(pre, r0) else Missing(pre, r, r0)
  {
    hide DoUnit, ValidUnit, Robs;
    if line != [] {
      var front, last := line[..|line| - 1], line[|line| - 1];
      LineExactly(su, front, pre, t, s);
      var r, r0 := DoUnits(su, COMPILED, front, t), DoUnits(su, COMPILED, front, s);
      if r0.Fine? {
        if r == Shift(pre, r0) {
          UnitExactly(su, last, pre, r0.s);
        } else {
          UnitKeepsMissing(su, last, pre, r.s, r0.s);
        }
      }
    }
  }

  lemma {:induction false} ProgramExactly(su: Setup, prog: Program, pre: seq<byte>, s: State)
    requires Inside(su, s) && pre != [] && ValidProgram(prog)
    ensures var r, r0 := DoLines(su, COMPILED, prog, Behind(pre, s)), DoLines(su, COMPILED, prog, s);
      if ProgramRobs(su, prog, s) then Missing(pre, r, r0) else r == Shift(pre, r0)
  {
    hide DoUnits, ValidUnit, LineRobs;
    if prog != [] {
      var front, last := prog[..|prog| - 1], prog[|prog| - 1];
      assert forall i, j :: 0 <= i < |front| && 0 <= j < |front[i]| ==> front[i][j] == prog[i][j];
      ProgramExactly(su, front, pre, s);
      var r, r0 := DoLines(su, COMPILED, front, Behind(pre, s)), DoLines(su, COMPILED, front, s);
      if r0.Fine? {
        assert forall j :: 0 <= j < |last| ==> last[j] == prog[|prog| - 1][j];
        LineExactly(su, last, pre, State(0, r.s.out), State(0, r0.s.out));
      }
    }
  }

  /** A block, short or full, leaves the output in front of it alone and adds the same behind any
      of it, exactly when no unit of it chops more than the block has written. */
  lemma BlockShiftsExactly(su: Setup, prog: Program, out: seq<byte>)
    requires ValidProgram(prog)
    ensures (forall pre :: DoLines(su, COMPILED, prog, Behind(pre, State(0, out))) == Shift(pre, DoLines(su, COMPILED, prog, State(0, out))))
      <==> !ProgramRobs(su, prog, State(0, out))
  {
    hide DoLines, ProgramRobs, ValidProgram;
    var s := State(0, out);
    forall pre
      ensures (pre == [] || !ProgramRobs(su, prog, s)) ==>
        DoLines(su, COMPILED, prog, Behind(pre, s)) == Shift(pre, DoLines(su, COMPILED, prog, s))
    {
      if pre == [] {
        ShiftNothing(s, DoLines(su, COMPILED, prog, s));
      } else {
        ProgramExactly(su, prog, pre, s);
      }
    }
    ProgramExactly(su, prog, [0], s);
  }

  lemma ShiftNothing(s: State, r: Result)
    ensures Behind([], s) == s && Shift([], r) == r
  {
    assert [] + s.out == s.out && [] + r.s.out == r.s.out;
  }

  // ------------------------------------------------------ blocks that rob nothing

  /** A unit whose repetitions can all be left out while its blanks are still chopped. */
  predicate Risky(u: Unit) {
    u.nopad && u.loop > 1 && u.chop > 0
  }

  lemma UnitReads(su: Setup, u: Unit, s: State)
    requires Inside(su, s) && ValidUnit(u)
    ensures Reads(s, DoUnit(su, COMPILED, u, s), Consumes(u) * u.loop)
  {
    hide Repeat, ValidUnit, Consumes, Loaded;
    RepeatReads(su, u, 0, s);
  }

  lemma NotRisky(su: Setup, u: Unit, s: State)
    requires CountLoads(u) && (Risky(u) ==> s.inp + Consumes(u) <= |su.block|)
    ensures !Robs(su, u, s)
  {
    LoadedLess(u.chop);
  }

  lemma {:induction false} LineSafe(su: Setup, line: Line, out: seq<byte>)
    requires forall j :: 0 <= j < |line| ==> ValidUnit(line[j]) && CountLoads(line[j])
    requires LineSize(line) <= |su.block| || forall j :: 0 <= j < |line| ==> !Risky(line[j])
    ensures !LineRobs(su, line, State(0, out))
    ensures Reads(State(0, out), DoUnits(su, COMPILED, line, State(0, out)), LineSize(line))
  {
    hide DoUnit, ValidUnit, CountLoads, Consumes, Robs;
    if line != [] {
      var front, last := line[..|line| - 1], line[|line| - 1];
      var n, k := Consumes(last), last.loop;
      ConsumesIsNat(last);
      assert n * k >= 0 && (k >= 1 ==> n * k >= n);
      assert LineSize(line) == LineSize(front) + n * k;
      LineSafe(su, front, out);
      var r := DoUnits(su, COMPILED, front, State(0, out));
      if r.Fine? {
        UnitReads(su, last, r.s);
        NotRisky(su, last, r.s);
      }
    }
  }

  predicate AnyRisky(prog: Program) {
    exists i, j :: 0 <= i < |prog| && 0 <= j < |prog[i]| && Risky(prog[i][j])
  }

  /** A full block robs nothing; without risky units the short block of hxd_flush does not either. */
  lemma {:induction false} BlockSafe(su: Setup, prog: Program, out: seq<byte>)
    requires ValidProgram(prog) && CountsLoad(prog)
    requires BlockSize(prog) <= |su.block| || !AnyRisky(prog)
    ensures !ProgramRobs(su, prog, State(0, out))
  {
    hide DoUnits, ValidUnit, CountLoads, LineSize, Risky, LineRobs;
    if prog != [] {
      var front, last := prog[..|prog| - 1], prog[|prog| - 1];
      assert forall i, j :: 0 <= i < |front| && 0 <= j < |front[i]| ==> front[i][j] == prog[i][j];
      BlockSafe(su, front, out);
      var r := DoLines(su, COMPILED, front, State(0, out));
      if r.Fine? {
        forall j | 0 <= j < |last|
          ensures ValidUnit(last[j]) && CountLoads(last[j]) && (!AnyRisky(prog) ==> !Risky(last[j]))
        {
          assert last[j] == prog[|prog| - 1][j];
        }
        LineSafe(su, last, r.s.out);
      }
    }
  }

  /** On a full block OP_CHOP never removes bytes of an earlier block: whatever output
      precedes the block stays in front, and what the block adds does not depend on it.
      Without risky units this holds of the short block of hxd_flush as well. */
  lemma BlockShifts(su: Setup, prog: Program, pre: seq<byte>, out: seq<byte>)
    requires ValidProgram(prog) && CountsLoad(prog)
    requires BlockSize(prog) <= |su.block| || !AnyRisky(prog)
    ensures DoLines(su, COMPILED, prog, State(0, pre + out)) == Shift(pre, DoLines(su, COMPILED, prog, State(0, out)))
  {
    hide DoLines, ProgramRobs, ValidProgram, CountsLoad, AnyRisky, BlockSize;
    BlockSafe(su, prog, out);
    BlockShiftsExactly(su, prog, out);
    assert Behind(pre, State(0, out)) == State(0, pre + out);
  }

  const PAIRS: Unit := Unit(2, true, [Conv(0, -1, -1, FC1('c'), 1), Lit(32)], 1, 1)

  /** The format 2/2?"%c " */
  const PAIRS_FORMAT: seq<byte> := ['2' as int, SLASH, '2' as int, QUESTION, QUOTE, PERCENT, 'c' as int, BLANK, QUOTE]

  lemma PairsItems()
    ensures var items := PAIRS.items;
      && items[..0] == [] && items[..1] == [items[0]] && items[1..] == [items[1]] && items[1..][1..] == []
      && ItemsBytes(items[..0]) == 0 && ItemsBytes(items[..1]) == 1 && ItemsBytes(items) == 1
  {
    var items := PAIRS.items;
    assert items[..1] == [items[0]];
    assert items[..1][..0] == [];
    assert ItemsBytes(items[..1]) == ItemsBytes(items[..1][..0]) + 1;
    assert ItemsBytes(items) == ItemsBytes(items[..1]) + 0;
  }

  lemma PairsWritable()
    ensures Writable(PAIRS) && Limit(PAIRS) == 2
  {
    PairsItems();
    var items := PAIRS.items;
    assert Blanks(items[..1]) == 0;
    assert Blanks(items) == Blanks(items[..1]) + 1;
  }

  lemma PairsText()
    ensures Writable(PAIRS) && UnitText(PAIRS, true) == PAIRS_FORMAT
  {
    PairsWritable();
    PairsItems();
    hide Limit, Writable;
    var items := PAIRS.items;
    assert ItemText(items[0]) == [PERCENT, 'c' as int] by {
      assert FlagsText(0, 0) == [] by { NoFlagsText(); }
    }
    assert ItemsText(items[1..]) == [BLANK] + [];
    assert ItemsText(items) == [PERCENT, 'c' as int] + [BLANK];
    assert NumeralOf(2) == ['2' as int];
    assert LimitText(2, true) == [SLASH] + ['2' as int, QUESTION];
  }

  lemma NoFlagsText()
    ensures FlagsText(0, 0) == []
  {
    assert FlagsText(0, 5) == [];
    assert FlagsText(0, 4) == [];
    assert FlagsText(0, 3) == [];
    assert FlagsText(0, 2) == [];
    assert FlagsText(0, 1) == [];
  }

  /** The unit PAIRS is what hxd_compile makes of the format. */
  lemma PairsIsParsed()
    ensures Parse(PAIRS_FORMAT, false) == Parsed([[PAIRS]], 9)
  {
    PairsText();
    hide Parse, Writable, UnitText;
    var line, prog := [PAIRS], [[PAIRS]];
    assert line[1..] == [];
    assert WritableLine(line, false);
    SingleText(line, false);
    assert ProgramText(prog, false) == LineText(line, false) + [];
    ProgramReadsBack(prog, false);
  }

  /** On a short block a risky unit does chop output that was there before: flushing a single
      byte under the format 2/2?"%c " writes nothing and removes one byte of an earlier block. */
  lemma FlushChopsEarlierOutput(su: Setup, out: seq<byte>)
    requires |su.block| == 1 && |out| > 0
    ensures Parse(PAIRS_FORMAT, false) == Parsed([[PAIRS]], |PAIRS_FORMAT|)
    ensures DoLines(su, COMPILED, [[PAIRS]], State(0, out)) == Fine(State(0, out[..|out| - 1]))
  {
    hide Parse;
    PairsIsParsed();
    var s := State(0, out);
    PairsItems();
    assert Repeat(su, COMPILED, PAIRS, 0, s) == Fine(s);
    assert DoUnits(su, COMPILED, [], s) == Fine(s) && [PAIRS][..0] == [];
    assert [[PAIRS]][..0] == [];
  }

  // -------------------------------------------------------------- the stream

  /** base is the address of the first block. */
  datatype Config = Config(prog: Program, bigEndian: bool, printf: Printf, slots: nat, base: nat)

  function SetupFor(cfg: Config, block: seq<byte>, address: nat): Setup
    requires |LinesCode(cfg.prog)| < CODE_SIZE
  {
    Setup(Image(cfg.prog), block, address, cfg.bigEndian, cfg.slots, cfg.printf)
  }

  /** Input cut into whole blocks and a rest. */
  datatype Cutting = Cutting(blocks: seq<seq<byte>>, rest: seq<byte>)

  function Cut(data: seq<byte>, size: nat): (r: Cutting)
    requires size > 0
    ensures |r.rest| < size && forall k :: 0 <= k < |r.blocks| ==> |r.blocks[k]| == size
    decreases |data|
  {
    if |data| < size then Cutting([], data)
    else
      var c := Cut(data[size..], size);
      Cutting([data[..size]] + c.blocks, c.rest)
  }

  function AddressOf(k: nat, size: nat): (r: nat)
    ensures r == k * size
  {
    k * size
  }

  /** The blocks one after the other, block k at k * size bytes from the base. */
  function Feed(cfg: Config, blocks: seq<seq<byte>>, size: nat): (r: Result)
    requires |LinesCode(cfg.prog)| < CODE_SIZE
  {
    if blocks == [] then Fine(State(0, []))
    else
      var k := |blocks| - 1;
      match Feed(cfg, blocks[..k], size)
      case Fault(e, s) => Fault(e, s)
      case Fine(s) => DoLines(SetupFor(cfg, blocks[k], cfg.base + AddressOf(k, size)), COMPILED, cfg.prog, State(0, s.out))
  }

  /** Whether a block, on its own, chops more than it has written */
  predicate BlockRobs(cfg: Config, block: seq<byte>, address: nat)
    requires |LinesCode(cfg.prog)| < CODE_SIZE
  {
    ProgramRobs(SetupFor(cfg, block, address), cfg.prog, State(0, []))
  }

  predicate FeedRobs(cfg: Config, blocks: seq<seq<byte>>, size: nat)
    requires |LinesCode(cfg.prog)| < CODE_SIZE
  {
    blocks != [] &&
    var k := |blocks| - 1;
    FeedRobs(cfg, blocks[..k], size) || BlockRobs(cfg, blocks[k], cfg.base + AddressOf(k, size))
  }

  /** Where counts load, full blocks never do. */
  lemma {:induction false} FullBlocksSafe(cfg: Config, blocks: seq<seq<byte>>, size: nat)
    requires |LinesCode(cfg.prog)| < CODE_SIZE && ValidProgram(cfg.prog) && CountsLoad(cfg.prog)
    requires BlockSize(cfg.prog) <= size && forall k :: 0 <= k < |blocks| ==> |blocks[k]| == size
    ensures !FeedRobs(cfg, blocks, size)
  {
    hide ProgramRobs, ValidProgram, CountsLoad, BlockSize, LinesCode, Image, AnyRisky, AddressOf;
    if blocks != [] {
      var k := |blocks| - 1;
      var front := blocks[..k];
      FullBlocksSafe(cfg, front, size);
      BlockSafe(SetupFor(cfg, blocks[k], cfg.base + AddressOf(k, size)), cfg.prog, []);
    }
  }

  lemma {:induction false} FeedRobsLater(cfg: Config, blocks: seq<seq<byte>>, n: nat, size: nat)
    requires |LinesCode(cfg.prog)| < CODE_SIZE && n <= |blocks| && FeedRobs(cfg, blocks[..n], size)
    ensures FeedRobs(cfg, blocks, size)
    decreases |blocks| - n
  {
    if n == |blocks| {
      assert blocks[..n] == blocks;
    } else {
      assert blocks[..n + 1][..n] == blocks[..n];
      FeedRobsLater(cfg, blocks, n + 1, size);
    }
  }

  /** Whether and how a block fails does not depend on the output in front of it. */
  lemma SameFault(su: Setup, prog: Program, x: seq<byte>, y: seq<byte>)
    requires ValidProgram(prog)
    ensures var r, q := DoLines(su, COMPILED, prog, State(0, x)), DoLines(su, COMPILED, prog, State(0, y));
      (r.Fine? <==> q.Fine?) && (r.Fault? ==> q.Fault? && r.error == q.error)
  {
    hide DoLines, ProgramRobs, ValidProgram;
    var s := State(0, []);
    assert Behind(x, s) == State(0, x) && Behind(y, s) == State(0, y) by { assert x + [] == x && y + [] == y; }
    if x != [] { ProgramExactly(su, prog, x, s); }
    if y != [] { ProgramExactly(su, prog, y, s); }
  }

  /** A block that robs nothing adds the same behind any output. */
  lemma AddsBehind(su: Setup, prog: Program, out: seq<byte>)
    requires ValidProgram(prog) && !ProgramRobs(su, prog, State(0, []))
    ensures DoLines(su, COMPILED, prog, State(0, out)) == Shift(out, DoLines(su, COMPILED, prog, State(0, [])))
  {
    hide DoLines, ProgramRobs, ValidProgram;
    BlockShiftsExactly(su, prog, []);
    assert Behind(out, State(0, [])) == State(0, out) by { assert out + [] == out; }
  }

  /** More input that does not complete a block waits; completing one adds it. */
  lemma {:induction false} CutMore(data: seq<byte>, x: seq<byte>, size: nat)
    requires size > 0 && |Cut(data, size).rest| + |x| <= size
    ensures var c := Cut(data, size);
      Cut(data + x, size) == if |c.rest| + |x| < size then Cutting(c.blocks, c.rest + x)
                             else Cutting(c.blocks + [c.rest + x], [])
    decreases |data|
  {
    if |data| < size {
      if |data| + |x| == size {
        assert (data + x)[..size] == data + x && (data + x)[size..] == [];
        assert [data + x] + [] == [data + x] == [] + [data + x];
      }
    } else {
      CutMore(data[size..], x, size);
      assert (data + x)[..size] == data[..size] && (data + x)[size..] == data[size..] + x;
      var c := Cut(data[size..], size);
      assert [data[..size]] + (c.blocks + [c.rest + x]) == ([data[..size]] + c.blocks) + [c.rest + x];
    }
  }

  lemma {:induction false} CutPrefix(data: seq<byte>, x: seq<byte>, size: nat)
    requires size > 0
    ensures var n := |Cut(data, size).blocks|;
      n <= |Cut(data + x, size).blocks| && Cut(data + x, size).blocks[..n] == Cut(data, size).blocks
    decreases |data|
  {
    if |data| >= size {
      CutPrefix(data[size..], x, size);
      assert (data + x)[..size] == data[..size] && (data + x)[size..] == data[size..] + x;
      var c, d := Cut(data[size..], size), Cut(data[size..] + x, size);
      var n := |c.blocks|;
      assert ([data[..size]] + d.blocks)[..n + 1] == [data[..size]] + d.blocks[..n];
    } else {
      assert Cut(data + x, size).blocks[..0] == [];
    }
  }

  /** A block that fails stops the stream. */
  lemma {:induction false} FeedStops(cfg: Config, blocks: seq<seq<byte>>, n: nat, size: nat)
    requires |LinesCode(cfg.prog)| < CODE_SIZE && n <= |blocks| && Feed(cfg, blocks[..n], size).Fault?
    ensures Feed(cfg, blocks, size) == Feed(cfg, blocks[..n], size)
    decreases |blocks| - n
  {
    if n == |blocks| {
      assert blocks[..n] == blocks;
    } else {
      assert blocks[..n + 1][..n] == blocks[..n];
      FeedStops(cfg, blocks, n + 1, size);
    }
  }
}
