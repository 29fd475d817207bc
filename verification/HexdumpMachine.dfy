/** The bytecode machine of tools/hexdump/hexdump.c: opcodes, one step of
    vm_exec, and runs of many steps. */
module HexdumpMachine {
  import opened Arithmetic

  /** What vm_throw can carry: HXD_EFORMAT, HXD_EDRAINED, HXD_ENOTSUPP, HXD_EOOPS,
      ERANGE, ENOMEM, and an errno left behind by snprintf. */
  datatype Error = FORMAT | DRAINED | NOTSUPP | OOPS | RANGE | NOMEM | SYSTEM

  // ---------------------------------------------------------------- opcodes

  const HALT: byte := 0
  const NOOP: byte := 1
  const TRAP: byte := 2
  const PC: byte := 3
  const TRUE: byte := 4
  const FALSE: byte := 5
  const ZERO: byte := 6
  const ONE: byte := 7
  const TWO: byte := 8
  const I8: byte := 9
  const I16: byte := 10
  const I32: byte := 11
  const NEG: byte := 12
  const SUB: byte := 13
  const ADD: byte := 14
  const NOT: byte := 15
  const OR: byte := 16
  const LT: byte := 17
  const POP: byte := 18
  const DUP: byte := 19
  const SWAP: byte := 20
  const READ: byte := 21
  const COUNT: byte := 22
  const PUTC: byte := 23
  const CONV: byte := 24
  const CHOP: byte := 25
  const PAD: byte := 26
  const JMP: byte := 27
  const RESET: byte := 28
  const XBYTE2: byte := 29
  const PBYTE: byte := 30
  const XADDR7: byte := 31
  const XADDR8: byte := 32

  // ---------------------------------------------------- conversion characters

  const F_HASH := 1
  const F_ZERO := 2
  const F_MINUS := 4
  const F_SPACE := 8
  const F_PLUS := 16

  function FC1(c: char): int
    requires c < 128 as char
  {
    c as int
  }

  /** FC('_', c) */
  function FC2(c: char): int
    requires c < 128 as char
  {
    c as int * 256 + '_' as int
  }

  // ------------------------------------------------------------------ printf

  datatype PrintfArg = Word(word: int) | Text(text: seq<byte>)

  datatype Printed = Printed(bytes: seq<byte>) | PrintFailed

  /** snprintf of one conversion: flags, width, precision (-1 when absent),
      conversion character and argument. */
  type Printf = (int, int, int, int, PrintfArg) -> Printed

  /** What stays fixed while a block is run. */
  datatype Setup = Setup(
    code: seq<byte>,
    block: seq<byte>,
    address: nat,
    bigEndian: bool,
    slots: nat,
    printf: Printf)

  function ToInt32(w: int): int {
    (w + 0x8000_0000) % 0x1_0000_0000 - 0x8000_0000
  }

  function ToUint32(w: int): (r: nat)
    ensures r < 0x1_0000_0000
  {
    w % 0x1_0000_0000
  }

  function ToByte(w: int): byte {
    w % 256
  }

  function HexDigit(n: int): byte
    requires 0 <= n < 16
  {
    if n < 10 then '0' as int + n else 'a' as int + (n - 10)
  }

  /** vm_putx */
  function HexByte(c: int): (r: seq<byte>)
    ensures |r| == 2
  {
    [HexDigit(c / 16 % 16), HexDigit(c % 16)]
  }

  function ToPrint(c: byte): byte {
    if 0x1f < c < 0x7f then c else '.' as int
  }

  function OctalDigit(n: int): byte
    requires 0 <= n < 8
  {
    '0' as int + n
  }

  /** tooctal: the label up to its NUL, or its three bytes when it has none. */
  function ToOctal(c: byte): seq<byte> {
    var backslash := '\\' as int;
    if 0x1f < c < 0x7f then [c]
    else if c == 0 then [backslash, '0' as int]
    else if c == 7 then [backslash, 'a' as int]
    else if c == 8 then [backslash, 'b' as int]
    else if c == 12 then [backslash, 'f' as int]
    else if c == 10 then [backslash, 'n' as int]
    else if c == 13 then [backslash, 'r' as int]
    else if c == 9 then [backslash, 't' as int]
    else if c == 11 then [backslash, 'v' as int]
    else [OctalDigit(c / 64 % 8), OctalDigit(c / 8 % 8), OctalDigit(c % 8)]
  }

  const CONTROL_NAMES: seq<string> := [
    "nul", "soh", "stx", "etx", "eot", "enq", "ack", "bel",
    "bs", "ht", "lf", "vt", "ff", "cr", "so", "si",
    "dle", "dc1", "dc2", "dc3", "dc4", "nak", "syn", "etb",
    "can", "em", "sub", "esc", "fs", "gs", "rs", "us"]

  function Ascii(s: string): (r: seq<byte>)
    ensures |r| == |s|
  {
    seq(|s|, i requires 0 <= i < |s| => ToByte(s[i] as int))
  }

  /** toshort */
  function ToShort(c: byte): seq<byte> {
    if c <= 0x1f then Ascii(CONTROL_NAMES[c])
    else if c == 0x7f then Ascii("del")
    else if c < 0x7f then [c]
    else HexByte(c)
  }

  /** The flags vm_conv copies into the format it builds: F_SPACE is dropped. */
  function PrintfFlags(flags: int): int {
    if flags / F_SPACE % 2 == 1 then flags - F_SPACE else flags
  }

  datatype Converted = Converted(bytes: seq<byte>) | Rejected(error: Error)

  function Checked(p: Printed): Converted {
    match p
    case PrintFailed => Rejected(SYSTEM)
    case Printed(bytes) => if |bytes| >= 256 then Rejected(NOMEM) else Converted(bytes)
  }

  /** vm_conv: what a conversion writes when the input position is inp. */
  function VmConv(su: Setup, inp: nat, flags: int, width: int, prec: int, fc: int, word: int): Converted
    requires inp <= |su.block|
  {
    var f := PrintfFlags(flags);
    var w := Max(width, 0);
    var labelPrec := if prec > 0 then Min(prec, 3) else 3;
    var rest := |su.block| - inp;
    var here := su.address + inp;
    if fc == FC2('c') then
      Checked(su.printf(f, w, labelPrec, FC1('s'), Text(ToOctal(ToByte(word)))))
    else if fc == FC2('p') then
      Checked(su.printf(f, w, prec, FC1('c'), Word(ToPrint(ToByte(word)))))
    else if fc == FC2('u') then
      Checked(su.printf(f, w, labelPrec, FC1('s'), Text(ToShort(ToByte(word)))))
    else if fc == FC2('d') then
      Checked(su.printf(f, w, prec, FC1('d'), Word(ToInt32(here))))
    else if fc == FC2('o') then
      Checked(su.printf(f, w, prec, FC1('o'), Word(ToInt32(here))))
    else if fc == FC2('x') then
      Checked(su.printf(f, w, prec, FC1('x'), Word(ToInt32(here))))
    else if fc == FC1('s') then
      Checked(su.printf(f, w, if prec <= 0 || prec > rest then rest else prec, FC1('s'), Text(su.block[inp..])))
    else if fc == FC1('u') then
      Checked(su.printf(f, w, prec, fc, Word(ToUint32(word))))
    else if fc == FC1('c') || fc == FC1('d') || fc == FC1('i') || fc == FC1('o')
            || fc == FC1('X') || fc == FC1('x') then
      Checked(su.printf(f, w, prec, fc, Word(ToInt32(word))))
    else
      Rejected(NOTSUPP)
  }

  /** OP_READ, big endian: shift the word left and add each byte. */
  function WordBE(bytes: seq<byte>): int {
    if |bytes| == 0 then 0 else WordBE(bytes[..|bytes| - 1]) * 256 + bytes[|bytes| - 1]
  }

  function Power256(n: nat): int {
    if n == 0 then 1 else 256 * Power256(n - 1)
  }

  /** OP_READ, little endian: each byte is shifted as a 32-bit int, so byte 3 fills the sign. */
  function WordLE(bytes: seq<byte>): int {
    if |bytes| == 0 then 0
    else WordLE(bytes[..|bytes| - 1]) + ToInt32(bytes[|bytes| - 1] * Power256(|bytes| - 1))
  }

  function LoadWord(bigEndian: bool, bytes: seq<byte>): int {
    if bigEndian then WordBE(bytes) else WordLE(bytes)
  }

  /** Where OP_READ of n bytes leaves the input position. */
  function ReadEnd(su: Setup, inp: nat, n: int): (r: nat)
    requires inp <= |su.block|
    ensures inp <= r <= |su.block|
  {
    Min(inp + Max(n, 0), |su.block|)
  }

  /** vm_getc */
  function GetC(su: Setup, inp: nat): byte
    requires inp <= |su.block|
  {
    if inp < |su.block| then su.block[inp] else 0
  }

  function AfterGetC(su: Setup, inp: nat): (r: nat)
    requires inp <= |su.block|
    ensures inp <= r <= |su.block|
  {
    if inp < |su.block| then inp + 1 else inp
  }

  function Addr8(addr: nat): seq<byte> {
    HexByte(addr / 0x100_0000) + HexByte(addr / 0x1_0000) + HexByte(addr / 0x100) + HexByte(addr)
  }

  function Addr7(addr: nat): seq<byte> {
    [HexDigit(addr / 0x100_0000 % 16)] + HexByte(addr / 0x1_0000) + HexByte(addr / 0x100) + HexByte(addr)
  }

  /** OP_CHOP */
  function Chop(out: seq<byte>, n: int): seq<byte> {
    out[..Max(|out| - Max(n, 0), 0)]
  }

  function Spaces(n: int): (r: seq<byte>)
    ensures |r| == Max(n, 0)
  {
    seq(Max(n, 0), _ => ' ' as int)
  }

  // ---------------------------------------------------------------- one step

  datatype Machine = Machine(stack: seq<int>, pc: int, inp: nat, out: seq<byte>)

  /** Crashed stands for what C leaves undefined: a stack index outside its slots,
      a program counter outside the code, an opcode outside the jump table. */
  datatype Outcome =
    | Running(m: Machine)
    | Halted(m: Machine)
    | Thrown(error: Error, inp: nat, out: seq<byte>)
    | Crashed

  function Top(m: Machine, i: nat): int
    requires i < |m.stack|
  {
    m.stack[|m.stack| - 1 - i]
  }

  /** Replace the top n slots by vs and go on to the next opcode. */
  function Replace(su: Setup, m: Machine, n: nat, vs: seq<int>, width: nat): Outcome
    requires n <= |m.stack|
  {
    var s := m.stack[..|m.stack| - n] + vs;
    if |s| <= su.slots then Running(m.(stack := s, pc := m.pc + width)) else Crashed
  }

  function Write(m: Machine, bytes: seq<byte>, width: nat): Outcome {
    Running(m.(out := m.out + bytes, pc := m.pc + width))
  }

  function Truth(b: bool): int { if b then 1 else 0 }

  function Join(hi: byte, lo: byte): int { hi * 256 + lo }

  predicate Fetches(su: Setup, m: Machine) {
    0 <= m.pc < |su.code| && m.inp <= |su.block|
  }

  /** Pushes of immediates. */
  function StepPush(su: Setup, m: Machine): Outcome
    requires Fetches(su, m)
  {
    var op := su.code[m.pc];
    var left := |su.code| - m.pc;
    if op == PC then Replace(su, m, 0, [m.pc], 1)
    else if op == TRUE || op == ONE then Replace(su, m, 0, [1], 1)
    else if op == FALSE || op == ZERO then Replace(su, m, 0, [0], 1)
    else if op == TWO then Replace(su, m, 0, [2], 1)
    else if op == I8 && left > 1 then Replace(su, m, 0, [su.code[m.pc + 1]], 2)
    else if op == I16 && left > 2 then Replace(su, m, 0, [Join(su.code[m.pc + 1], su.code[m.pc + 2])], 3)
    // the first two assignments of the source are overwritten by the third
    else if op == I32 && left > 4 then Replace(su, m, 0, [Join(su.code[m.pc + 3], su.code[m.pc + 4])], 5)
    else if op == COUNT then Replace(su, m, 0, [|su.block| - m.inp], 1)
    else Crashed
  }

  /** Operators on the stack. */
  function StepStack(su: Setup, m: Machine): Outcome
    requires Fetches(su, m)
  {
    var op := su.code[m.pc];
    var n := |m.stack|;
    if op == NEG && n >= 1 then Replace(su, m, 1, [-Top(m, 0)], 1)
    else if op == SUB && n >= 2 then Replace(su, m, 2, [Top(m, 1) - Top(m, 0)], 1)
    else if op == ADD && n >= 2 then Replace(su, m, 2, [Top(m, 1) + Top(m, 0)], 1)
    else if op == NOT && n >= 1 then Replace(su, m, 1, [Truth(Top(m, 0) == 0)], 1)
    else if op == OR && n >= 2 then Replace(su, m, 2, [Truth(Top(m, 1) != 0 || Top(m, 0) != 0)], 1)
    else if op == LT && n >= 2 then Replace(su, m, 2, [Truth(Top(m, 1) < Top(m, 0))], 1)
    else if op == POP && n >= 1 then Replace(su, m, 1, [], 1)
    else if op == DUP && n >= 1 then Replace(su, m, 1, [Top(m, 0), Top(m, 0)], 1)
    else if op == SWAP && n >= 2 then Replace(su, m, 2, [Top(m, 0), Top(m, 1)], 1)
    else Crashed
  }

  /** Opcodes that move the input position or write output. */
  function StepIO(su: Setup, m: Machine): Outcome
    requires Fetches(su, m)
  {
    var op := su.code[m.pc];
    var n := |m.stack|;
    if op == READ && n >= 1 then
      var end := ReadEnd(su, m.inp, Top(m, 0));
      Replace(su, m.(inp := end), 1, [LoadWord(su.bigEndian, su.block[m.inp..end])], 1)
    else if op == PUTC && m.pc + 1 < |su.code| then Write(m, [su.code[m.pc + 1]], 2)
    else if op == CONV && n >= 5 then
      match VmConv(su, m.inp, Top(m, 3), Top(m, 2), Top(m, 1), Top(m, 0), Top(m, 4)) {
        case Rejected(e) => Thrown(e, m.inp, m.out)
        case Converted(bytes) => Write(m.(stack := m.stack[..n - 5]), bytes, 1)
      }
    else if op == CHOP && n >= 1 then
      Running(m.(stack := m.stack[..n - 1], out := Chop(m.out, Top(m, 0)), pc := m.pc + 1))
    else if op == PAD && n >= 1 then Write(m.(stack := m.stack[..n - 1]), Spaces(Top(m, 0)), 1)
    else if op == RESET then Running(m.(inp := 0, pc := m.pc + 1))
    else if op == XBYTE2 then Write(m.(inp := AfterGetC(su, m.inp)), HexByte(GetC(su, m.inp)), 1)
    else if op == PBYTE then Write(m.(inp := AfterGetC(su, m.inp)), [ToPrint(GetC(su, m.inp))], 1)
    else if op == XADDR7 then Write(m, Addr7(su.address + m.inp), 1)
    else if op == XADDR8 then Write(m, Addr8(su.address + m.inp), 1)
    else Crashed
  }

  /** One dispatch of vm_exec. */
  function Step(su: Setup, m: Machine): Outcome {
    if !Fetches(su, m) then Crashed
    else
      var op := su.code[m.pc];
      if op == HALT then Halted(m)
      else if op == NOOP then Running(m.(pc := m.pc + 1))
      else if op == TRAP then Thrown(OOPS, m.inp, m.out)
      else if PC <= op <= I32 || op == COUNT then StepPush(su, m)
      else if NEG <= op <= SWAP then StepStack(su, m)
      else if op == JMP then
        if |m.stack| < 2 then Crashed
        else
          var rest := m.stack[..|m.stack| - 2];
          if Top(m, 1) == 0 then Running(m.(stack := rest, pc := m.pc + 1))
          else if 0 <= Top(m, 0) < |su.code| then Running(m.(stack := rest, pc := Top(m, 0)))
          else Crashed
      else StepIO(su, m)
  }

  // -------------------------------------------------------------------- runs

  function Run(su: Setup, m: Machine, n: nat): Outcome
    decreases n
  {
    if n == 0 then Running(m)
    else
      match Step(su, m)
      case Running(m') => Run(su, m', n - 1)
      case Halted(m') => Halted(m')
      case Thrown(e, i, o) => Thrown(e, i, o)
      case Crashed => Crashed
  }

  /** Some number of steps takes the machine from m to o. */
  ghost predicate Reaches(su: Setup, m: Machine, o: Outcome) {
    exists n: nat :: Run(su, m, n) == o
  }

  lemma {:induction false} RunSplit(su: Setup, m: Machine, k: nat, m1: Machine, n: nat)
    requires Run(su, m, k) == Running(m1)
    ensures Run(su, m, k + n) == Run(su, m1, n)
    decreases k
  {
    hide Step;
    if k > 0 {
      RunSplit(su, Step(su, m).m, k - 1, m1, n);
    }
  }

  /** Runs compose. */
  lemma Chain(su: Setup, m: Machine, m1: Machine, o: Outcome)
    requires Reaches(su, m, Running(m1)) && Reaches(su, m1, o)
    ensures Reaches(su, m, o)
  {
    var k: nat :| Run(su, m, k) == Running(m1);
    var n: nat :| Run(su, m1, n) == o;
    RunSplit(su, m, k, m1, n);
  }

  lemma One(su: Setup, m: Machine, o: Outcome)
    requires Step(su, m) == o
    ensures Reaches(su, m, o)
  {
    hide Step;
    assert Run(su, m, 1) == o by {
      if o.Running? {
        assert Run(su, o.m, 0) == o;
      }
    }
  }

  lemma Stay(su: Setup, m: Machine)
    ensures Reaches(su, m, Running(m))
  {
    assert Run(su, m, 0) == Running(m);
  }

  /** One more step at the front of a run. */
  lemma Then(su: Setup, m: Machine, m1: Machine, o: Outcome)
    requires Step(su, m) == Running(m1) && Reaches(su, m1, o)
    ensures Reaches(su, m, o)
  {
    hide Step;
    One(su, m, Running(m1));
    Chain(su, m, m1, o);
  }

  /** The machine is deterministic: a run has at most one end. */
  lemma {:induction false} OneEnd(su: Setup, m: Machine, k: nat, n: nat)
    requires !Run(su, m, k).Running? && !Run(su, m, n).Running?
    ensures Run(su, m, k) == Run(su, m, n)
    decreases k
  {
    hide Step;
    match Step(su, m)
    case Running(m1) =>
      assert k > 0 && n > 0;
      OneEnd(su, m1, k - 1, n - 1);
    case _ =>
  }
}
