/** Format units as hxd_compile reads them, and the bytecode emit_unit writes for them. */
module HexdumpFormat {
  import opened Arithmetic

  import opened HexdumpMachine

  /** One element of a format unit: a literal character or a conversion.
      bytes is what getcnv reports, cut down to the byte count of the unit. */
  datatype Item =
    | Lit(ch: byte)
    | Conv(flags: int, width: int, prec: int, fc: int, bytes: int)

  /** loop is the repetition count, 1 when absent. skip is the part of the byte count
      no conversion consumes. chop counts the blanks that end the unit. */
  datatype Unit = Unit(loop: nat, nopad: bool, items: seq<Item>, skip: nat, chop: nat)

  type Line = seq<Unit>
  type Program = seq<Line>

  // ------------------------------------------------------------- block sizes

  function ItemBytes(item: Item): int {
    if item.Conv? then item.bytes else 0
  }

  function ItemsBytes(items: seq<Item>): int {
    if items == [] then 0 else ItemsBytes(items[..|items| - 1]) + ItemBytes(items[|items| - 1])
  }

  /** consumes, once the epilogue of emit_unit has run */
  function Consumes(u: Unit): int {
    ItemsBytes(u.items) + u.skip
  }

  function LineSize(line: Line): int {
    if line == [] then 0 else LineSize(line[..|line| - 1]) + Consumes(line[|line| - 1]) * line[|line| - 1].loop
  }

  function BlockSize(prog: Program): int {
    if prog == [] then 0 else Max(BlockSize(prog[..|prog| - 1]), LineSize(prog[|prog| - 1]))
  }

  // ----------------------------------------------------- what getint can return

  /** No immediate needs more than 32 bits. */
  predicate Int32(i: int) { -0x1_0000_0000 < i < 0x1_0000_0000 }

  predicate ValidItem(item: Item) {
    item.Conv? ==>
      && 0 <= item.flags < 32
      && -1 <= item.width && Int32(item.width)
      && -1 <= item.prec && Int32(item.prec)
      && 0 <= item.bytes && Int32(item.bytes)
      && 0 <= item.fc < 0x1_0000
      && (item.fc == FC1('x') ==> item.bytes >= 1)
      && (item.fc == FC2('p') ==> item.bytes == 1)
      && (item.fc == FC2('x') ==> item.bytes == 0)
  }

  /** The last chop items are single characters. */
  predicate EndsInBlanks(items: seq<Item>, chop: nat) {
    chop <= |items| && forall k :: |items| - chop <= k < |items| ==> items[k].Lit?
  }

  predicate ValidUnit(u: Unit) {
    && EndsInBlanks(u.items, u.chop)
    && (forall k :: 0 <= k < |u.items| ==> ValidItem(u.items[k]))
    && Int32(u.loop) && Int32(u.skip) && Int32(u.chop)
    && 0 <= ItemsBytes(u.items)
    && (u.nopad ==> Consumes(u) <= 255)
  }

  predicate ValidProgram(prog: Program) {
    forall i, j :: 0 <= i < |prog| && 0 <= j < |prog[i]| ==> ValidUnit(prog[i][j])
  }

  // ---------------------------------------------------------------- bytecode

  function Hi(d: nat): byte { d / 256 % 256 }

  function Lo(d: nat): byte { d % 256 }

  /** emit_int of a magnitude */
  function NatCode(i: nat): seq<byte> {
    if i > 65535 then [I32, i / 0x100_0000 % 256, i / 0x1_0000 % 256, Hi(i), Lo(i)]
    else if i > 255 then [I16, Hi(i), Lo(i)]
    else if i == 0 then [ZERO]
    else if i == 1 then [ONE]
    else if i == 2 then [TWO]
    else [I8, i]
  }

  /** emit_int */
  function IntCode(i: int): seq<byte> {
    if i < 0 then NatCode(-i) + [NEG] else NatCode(i)
  }

  const HOLE: seq<byte> := [TRAP, TRAP, TRAP, TRAP, TRAP, TRAP]

  /** What emit_link writes over the hole of emit_jmp: a jump d bytes on from its first byte. */
  function JumpCode(d: int): (r: seq<byte>)
    ensures |r| == |HOLE|
  {
    if d < 0 then [PC, I16, Hi(-d), Lo(-d), SUB, JMP] else [PC, I16, Hi(d), Lo(d), ADD, JMP]
  }

  /** OK_IS0FIXED */
  predicate IsZeroFixed(flags: int, width: int, prec: int, n: int) {
    (width == n && flags == F_ZERO && prec <= 0) || (width == -1 && prec == n) || (width == prec && width == n)
  }

  datatype Kind = Hex2 | Print1 | Addr7Kind | Addr8Kind | General

  /** Which conversions emit_unit compiles to a single opcode. */
  function KindOf(item: Item): Kind
    requires item.Conv?
  {
    if item.fc == FC1('x') && IsZeroFixed(item.flags, item.width, item.prec, 2) then Hex2
    else if item.fc == FC2('p') && item.width <= 1 && item.prec <= 1 then Print1
    else if item.fc == FC2('x') && IsZeroFixed(item.flags, item.width, item.prec, 7) then Addr7Kind
    else if item.fc == FC2('x') && IsZeroFixed(item.flags, item.width, item.prec, 8) then Addr8Kind
    else General
  }

  function ReadBytes(item: Item): int
    requires item.Conv?
  {
    if item.fc == FC1('s') then 0 else item.bytes
  }

  /** Read a word, push the four numbers of the conversion, convert. */
  function GeneralCode(item: Item): seq<byte>
    requires item.Conv?
  {
    IntCode(ReadBytes(item)) + ([READ] + (IntCode(item.flags) + (IntCode(item.width)
      + (IntCode(item.prec) + (IntCode(item.fc) + [CONV])))))
  }

  function ConvCode(item: Item): seq<byte>
    requires item.Conv?
  {
    match KindOf(item)
    case Hex2 => [XBYTE2]
    case Print1 => [PBYTE]
    case Addr7Kind => [XADDR7]
    case Addr8Kind => [XADDR8]
    case General => GeneralCode(item)
  }

  /** The test in front of a conversion that consumes input: pad or skip when none is left. */
  function GuardCode(item: Item): seq<byte>
    requires item.Conv?
  {
    var core := ConvCode(item);
    if item.bytes <= 0 then []
    else if item.width > 0 then
      var pad := IntCode(item.width) + [PAD, TRUE];
      [COUNT] + (JumpCode(6 + |pad| + 6) + (pad + JumpCode(6 + |core|)))
    else [COUNT, NOT] + JumpCode(6 + |core|)
  }

  function ItemCode(item: Item): seq<byte> {
    match item
    case Lit(ch) => [PUTC, ch]
    case Conv(_, _, _, _, _) => GuardCode(item) + ConvCode(item)
  }

  function ItemsCode(items: seq<Item>): seq<byte> {
    if items == [] then [] else ItemsCode(items[..|items| - 1]) + ItemCode(items[|items| - 1])
  }

  function SkipCode(u: Unit): seq<byte> {
    if u.skip > 0 then IntCode(u.skip) + [READ, POP] else []
  }

  /** From the top of the loop to the exit jump. */
  function TestCode(u: Unit): seq<byte>
  {
    [DUP] + (IntCode(u.loop) + ([SWAP, SUB, NOT] + (if u.nopad then [COUNT, I8, ToByte(Consumes(u)), LT, OR] else [])))
  }

  /** From the exit jump to the jump back. */
  function BodyCode(u: Unit): seq<byte> {
    [ONE, ADD] + (ItemsCode(u.items) + (SkipCode(u) + [TRUE]))
  }

  function LoopCode(u: Unit): seq<byte>
  {
    var body := BodyCode(u);
    TestCode(u) + (JumpCode(6 + |body| + 6) + (body + JumpCode(-(|TestCode(u)| + 6 + |body|))))
  }

  function ChopCode(u: Unit): seq<byte> {
    if u.loop > 1 && u.chop > 0 then IntCode(u.chop) + [CHOP] else []
  }

  /** emit_unit */
  function UnitCode(u: Unit): seq<byte>
  {
    [ZERO] + (LoopCode(u) + ([POP] + ChopCode(u)))
  }

  function UnitsCode(line: Line): seq<byte> {
    if line == [] then [] else UnitsCode(line[..|line| - 1]) + UnitCode(line[|line| - 1])
  }

  function LinesCode(prog: Program): seq<byte> {
    if prog == [] then [] else LinesCode(prog[..|prog| - 1]) + ([RESET] + UnitsCode(prog[|prog| - 1]))
  }

  const CODE_SIZE := 4096

  /** The whole code array after hxd_compile: the program, OP_HALT, and OP_TRAP to the end. */
  function Image(prog: Program): seq<byte>
    requires |LinesCode(prog)| < CODE_SIZE
  {
    LinesCode(prog) + [HALT] + seq(CODE_SIZE - 1 - |LinesCode(prog)|, _ => TRAP)
  }

  // ------------------------------------------------------------ bytes in place

  /** The bytes b stand at a, in code or in a format. */
  ghost predicate At(code: seq<byte>, a: int, b: seq<byte>) {
    0 <= a && a + |b| <= |code| && forall k {:trigger b[k]} :: 0 <= k < |b| ==> code[a + k] == b[k]
  }

  lemma AtParts(code: seq<byte>, a: int, b: seq<byte>, c: seq<byte>)
    requires At(code, a, b + c)
    ensures At(code, a, b) && At(code, a + |b|, c)
  {
    forall k | 0 <= k < |b| ensures code[a + k] == b[k] { assert (b + c)[k] == b[k]; }
    forall k | 0 <= k < |c| ensures code[a + |b| + k] == c[k] { assert (b + c)[|b| + k] == c[k]; }
  }
}
