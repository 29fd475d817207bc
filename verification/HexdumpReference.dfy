/** A direct interpreter of parsed format units: no bytecode, no stack, no jumps. */
module HexdumpReference {
  import opened Arithmetic

  import opened HexdumpMachine
  import opened HexdumpFormat

  /** fullInts: numbers in the format mean themselves; otherwise what OP_I32 loads for them.
      shortcuts: the four fixed conversions are written directly; otherwise through printf. */
  datatype Mode = Mode(fullInts: bool, shortcuts: bool)

  /** The meaning a reader of the format expects. */
  const PLAIN := Mode(true, false)
  /** What the compiled code does for every format. */
  const COMPILED := Mode(false, true)

  /** The value the code of emit_int(i) leaves on the stack. */
  function Loaded(i: int): int {
    if i < -65535 then -(-i % 0x1_0000) else if i > 65535 then i % 0x1_0000 else i
  }

  function Imm(mode: Mode, i: int): int {
    if mode.fullInts then i else Loaded(i)
  }

  datatype State = State(inp: nat, out: seq<byte>)

  datatype Result = Fine(s: State) | Fault(error: Error, s: State)

  predicate Inside(su: Setup, s: State) { s.inp <= |su.block| }

  predicate InsideResult(su: Setup, r: Result) { r.s.inp <= |su.block| }

  function Generic(su: Setup, mode: Mode, item: Item, s: State): (r: Result)
    requires item.Conv? && Inside(su, s)
    ensures InsideResult(su, r)
  {
    var end := ReadEnd(su, s.inp, Imm(mode, ReadBytes(item)));
    var word := LoadWord(su.bigEndian, su.block[s.inp..end]);
    match VmConv(su, end, Imm(mode, item.flags), Imm(mode, item.width), Imm(mode, item.prec), Imm(mode, item.fc), word)
    case Converted(bytes) => Fine(State(end, s.out + bytes))
    case Rejected(e) => Fault(e, State(end, s.out))
  }

  function Convert(su: Setup, mode: Mode, item: Item, s: State): (r: Result)
    requires item.Conv? && Inside(su, s)
    ensures InsideResult(su, r)
  {
    if !mode.shortcuts then Generic(su, mode, item, s)
    else
      match KindOf(item)
      case Hex2 => Fine(State(AfterGetC(su, s.inp), s.out + HexByte(GetC(su, s.inp))))
      case Print1 => Fine(State(AfterGetC(su, s.inp), s.out + [ToPrint(GetC(su, s.inp))]))
      case Addr7Kind => Fine(State(s.inp, s.out + Addr7(su.address + s.inp)))
      case Addr8Kind => Fine(State(s.inp, s.out + Addr8(su.address + s.inp)))
      case General => Generic(su, mode, item, s)
  }

  function DoItem(su: Setup, mode: Mode, item: Item, s: State): (r: Result)
    requires Inside(su, s)
    ensures InsideResult(su, r)
  {
    match item
    case Lit(ch) => Fine(State(s.inp, s.out + [ch]))
    case Conv(_, width, _, _, bytes) =>
      if bytes > 0 && s.inp == |su.block| then
        // nothing left: blanks as wide as the field, or nothing
        Fine(State(s.inp, s.out + if width > 0 then Spaces(Imm(mode, width)) else []))
      else Convert(su, mode, item, s)
  }

  function DoItems(su: Setup, mode: Mode, items: seq<Item>, s: State): (r: Result)
    requires Inside(su, s)
    ensures InsideResult(su, r)
  {
    if items == [] then Fine(s)
    else
      match DoItems(su, mode, items[..|items| - 1], s)
      case Fine(s1) => DoItem(su, mode, items[|items| - 1], s1)
      case Fault(e, s1) => Fault(e, s1)
  }

  /** One repetition: the items, then the bytes of the unit none of them consumes. */
  function DoOnce(su: Setup, mode: Mode, u: Unit, s: State): (r: Result)
    requires Inside(su, s)
    ensures InsideResult(su, r)
  {
    match DoItems(su, mode, u.items, s)
    case Fine(s1) => Fine(State(ReadEnd(su, s1.inp, Imm(mode, u.skip)), s1.out))
    case Fault(e, s1) => Fault(e, s1)
  }

  /** The repetitions from the c-th on; a unit marked ? stops where too little input is left. */
  function Repeat(su: Setup, mode: Mode, u: Unit, c: nat, s: State): (r: Result)
    requires Inside(su, s)
    ensures InsideResult(su, r)
    decreases Imm(mode, u.loop) - c
  {
    if c >= Imm(mode, u.loop) || (u.nopad && |su.block| - s.inp < Consumes(u)) then Fine(s)
    else
      match DoOnce(su, mode, u, s)
      case Fine(s1) => Repeat(su, mode, u, c + 1, s1)
      case Fault(e, s1) => Fault(e, s1)
  }

  /** A unit, then the blanks that end a repeated unit taken back. */
  function DoUnit(su: Setup, mode: Mode, u: Unit, s: State): (r: Result)
    requires Inside(su, s)
    ensures InsideResult(su, r)
  {
    match Repeat(su, mode, u, 0, s)
    case Fine(s1) => Fine(if u.loop > 1 then State(s1.inp, Chop(s1.out, Imm(mode, u.chop))) else s1)
    case Fault(e, s1) => Fault(e, s1)
  }

  function DoUnits(su: Setup, mode: Mode, line: Line, s: State): (r: Result)
    requires Inside(su, s)
    ensures InsideResult(su, r)
  {
    if line == [] then Fine(s)
    else
      match DoUnits(su, mode, line[..|line| - 1], s)
      case Fine(s1) => DoUnit(su, mode, line[|line| - 1], s1)
      case Fault(e, s1) => Fault(e, s1)
  }

  /** Every line starts over at the first byte of the block. */
  function DoLines(su: Setup, mode: Mode, prog: Program, s: State): (r: Result)
    requires Inside(su, s)
    ensures InsideResult(su, r)
  {
    if prog == [] then Fine(s)
    else
      match DoLines(su, mode, prog[..|prog| - 1], s)
      case Fine(s1) => DoUnits(su, mode, prog[|prog| - 1], State(0, s1.out))
      case Fault(e, s1) => Fault(e, s1)
  }
}
