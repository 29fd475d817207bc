/** The hexdump context: vm_exec, and the buffers between hxd_write, hxd_flush and hxd_read. */
module HexdumpStream {
  import opened Arithmetic

  import opened HexdumpMachine
  import opened HexdumpFormat
  import opened HexdumpReference
  import opened HexdumpParser
  import opened HexdumpCorrect
  import opened HexdumpBlocks
  import opened HexdumpContext

  const SLOTS := 8

  datatype Dispatched = Next | Stop | Trapped(error: Error)

  class Hexdump {
    const text: Code
    const stack: array<int>
    const printf: Printf
    var sp: nat
    var bigEndian: bool
    var blocksize: nat
    /** i.base, i.p - i.base, i.pe - i.base and i.address */
    var ibase: array<byte>
    var ip: nat
    var ipe: nat
    var address: nat
    /** the bytes from o.base to o.p */
    var obuf: seq<byte>

    /** The compiled format; everything written since the last flush, the address then, all the
        output until then, and everything read back so far */
    ghost var prog: Program
    ghost var fed: seq<byte>
    ghost var base: nat
    ghost var lead: seq<byte>
    ghost var drained: seq<byte>
    /** Whether a block since the last flush chopped more than it had written */
    ghost var robbed: bool

    /** hxd_open */
    constructor (printf: Printf)
      ensures Shape() && fresh(text) && fresh(text.code) && fresh(stack) && fresh(ibase)
      ensures text.pc == sp == ip == ipe == address == blocksize == 0 && obuf == [] && this.printf == printf
    {
      text := new Code();
      stack := new int[SLOTS];
      this.printf := printf;
      sp, ip, ipe, address, blocksize := 0, 0, 0, 0, 0;
      bigEndian, obuf := false, [];
      ibase := new byte[0];
      prog, fed, drained, base, lead, robbed := [], [], [], 0, [], false;
    }

    predicate Shape()
      reads this, text
    {
      && text.code.Length == CODE_SIZE
      && stack.Length == SLOTS && sp <= SLOTS
      && ip <= ipe <= ibase.Length
    }

    function Su(): Setup
      requires Shape()
      reads this, text, text.code, ibase
    {
      Setup(text.code[..], ibase[..ipe], address, bigEndian, SLOTS, printf)
    }

    function Mach(): Machine
      requires Shape()
      reads this, text, stack
    {
      Machine(stack[..sp], text.pc, ip, obuf)
    }

    method Push(v: int)
      requires Shape() && sp < SLOTS
      modifies this`sp, stack
      ensures Shape() && stack[..sp] == old(stack[..sp]) + [v]
    {
      stack[sp] := v;
      sp := sp + 1;
    }

    method Pop() returns (v: int)
      requires Shape() && sp > 0
      modifies this`sp
      ensures Shape() && old(stack[..sp]) == stack[..sp] + [v]
    {
      sp := sp - 1;
      v := stack[sp];
    }

    /** The opcodes that push: PC, constants, immediates, COUNT */
    method DispatchPush(op: byte)
      requires Shape() && Fetch(Su(), Mach(), op) && (PC <= op <= I32 || op == COUNT)
      requires PushFits(Su(), Mach())
      modifies this`sp, stack, text`pc
      ensures Shape() && Running(Mach()) == old(Step(Su(), Mach()))
    {
      hide Step;
      ghost var su, m := Su(), Mach();
      var pc := text.pc;
      var code := text.code;
      var v: int, width := 0, 1;
      if op == PC {
        v := pc;
      } else if op == TRUE || op == ONE {
        v := 1;
      } else if op == FALSE || op == ZERO {
        v := 0;
      } else if op == TWO {
        v := 2;
      } else if op == I8 {
        v, width := code[pc + 1], 2;
      } else if op == I16 {
        v := code[pc + 1] as int * 256;
        v, width := v + code[pc + 2], 3;
      } else if op == I32 {
        // each assignment replaces the one before it
        v := code[pc + 1] as int * 0x100_0000;
        v := code[pc + 2] as int * 0x1_0000;
        v := code[pc + 3] as int * 256;
        v, width := v + code[pc + 4], 5;
      } else {
        v := ipe - ip;
      }
      StepPushes(su, m, op, v, width);
      Push(v);
      text.pc := pc + width;
    }

    /** The operators on one stack slot */
    method DispatchNeg()
      requires Shape() && Fetch(Su(), Mach(), NEG) && sp >= 1
      modifies this`sp, stack, text`pc
      ensures Shape() && Running(Mach()) == old(Step(Su(), Mach()))
    {
      hide Step;
      ghost var su, m := Su(), Mach();
      var a := Pop();
      ghost var rest := stack[..sp];
      StepNeg(su, m, rest, a);
      Push(-a);
      text.pc := text.pc + 1;
    }

    method DispatchNot()
      requires Shape() && Fetch(Su(), Mach(), NOT) && sp >= 1
      modifies this`sp, stack, text`pc
      ensures Shape() && Running(Mach()) == old(Step(Su(), Mach()))
    {
      hide Step;
      ghost var su, m := Su(), Mach();
      var a := Pop();
      ghost var rest := stack[..sp];
      StepUnary(su, m, rest, a, [Truth(a == 0)]);
      Push(if a == 0 then 1 else 0);
      text.pc := text.pc + 1;
    }

    method DispatchPop()
      requires Shape() && Fetch(Su(), Mach(), POP) && sp >= 1
      modifies this`sp, text`pc
      ensures Shape() && Running(Mach()) == old(Step(Su(), Mach()))
    {
      hide Step;
      ghost var su, m := Su(), Mach();
      var a := Pop();
      StepUnary(su, m, stack[..sp], a, []);
      assert stack[..sp] + [] == stack[..sp];
      text.pc := text.pc + 1;
    }

    method DispatchDup()
      requires Shape() && Fetch(Su(), Mach(), DUP) && 1 <= sp < SLOTS
      modifies this`sp, stack, text`pc
      ensures Shape() && Running(Mach()) == old(Step(Su(), Mach()))
    {
      hide Step;
      ghost var su, m := Su(), Mach();
      var a := Pop();
      ghost var rest := stack[..sp];
      StepUnary(su, m, rest, a, [a, a]);
      Push(a);
      Push(a);
      assert stack[..sp] == rest + [a, a];
      text.pc := text.pc + 1;
    }

    /** The operators that make one value of two */
    method DispatchBinary(op: byte)
      requires Shape() && Fetch(Su(), Mach(), op) && op in {SUB, ADD, OR, LT} && sp >= 2
      modifies this`sp, stack, text`pc
      ensures Shape() && Running(Mach()) == old(Step(Su(), Mach()))
    {
      hide Step;
      ghost var su, m := Su(), Mach();
      var b := Pop();
      var a := Pop();
      ghost var rest := stack[..sp];
      assert m.stack == rest + [a, b];
      var v: int;
      if op == SUB {
        v := a - b;
      } else if op == ADD {
        v := a + b;
      } else if op == OR {
        v := if a != 0 || b != 0 then 1 else 0;
      } else {
        v := if a < b then 1 else 0;
      }
      StepBinary(su, m, rest, a, b, v);
      Push(v);
      text.pc := text.pc + 1;
    }

    method DispatchSwap()
      requires Shape() && Fetch(Su(), Mach(), SWAP) && sp >= 2
      modifies this`sp, stack, text`pc
      ensures Shape() && Running(Mach()) == old(Step(Su(), Mach()))
    {
      hide Step;
      ghost var su, m := Su(), Mach();
      var x := Pop();
      var y := Pop();
      ghost var rest := stack[..sp];
      assert m.stack == rest + [y, x];
      StepSwap(su, m, rest, y, x);
      Push(x);
      Push(y);
      assert stack[..sp] == rest + [x, y];
      text.pc := text.pc + 1;
    }

    /** The loop of OP_READ for big-endian words */
    method LoadBig(n: int) returns (v: int)
      requires Shape()
      modifies this`ip
      ensures Shape() && ip == ReadEnd(old(Su()), old(ip), n) && v == WordBE(ibase[old(ip)..ip])
    {
      var i := 0;
      v := 0;
      while i < n && ip < ipe
        invariant Shape() && old(ip) <= ip <= ipe && i == ip - old(ip) && i <= Max(n, 0)
        invariant v == WordBE(ibase[old(ip)..ip])
      {
        assert ibase[old(ip)..ip + 1][..i] == ibase[old(ip)..ip];
        v := v * 256;
        v := v + ibase[ip];
        ip := ip + 1;
        i := i + 1;
      }
    }

    /** The loop of OP_READ for little-endian words */
    method LoadLittle(n: int) returns (v: int)
      requires Shape()
      modifies this`ip
      ensures Shape() && ip == ReadEnd(old(Su()), old(ip), n) && v == WordLE(ibase[old(ip)..ip])
    {
      var i: int, scale: int := 0, 1;
      v := 0;
      while i < n && ip < ipe
        invariant Shape() && old(ip) <= ip <= ipe && i == ip - old(ip) && i <= Max(n, 0)
        invariant v == WordLE(ibase[old(ip)..ip]) && scale == Power256(i)
      {
        assert ibase[old(ip)..ip + 1][..i] == ibase[old(ip)..ip];
        v := v + ToInt32(ibase[ip] * scale);
        scale := 256 * scale;
        ip := ip + 1;
        i := i + 1;
      }
    }

    method Load(n: int) returns (v: int)
      requires Shape()
      modifies this`ip
      ensures Shape() && ip == ReadEnd(old(Su()), old(ip), n)
      ensures v == LoadWord(bigEndian, old(Su()).block[old(ip)..ip])
    {
      hide WordBE, WordLE;
      if bigEndian {
        v := LoadBig(n);
      } else {
        v := LoadLittle(n);
      }
      assert old(Su()).block[old(ip)..ip] == ibase[old(ip)..ip];
    }

    /** OP_READ */
    method DispatchRead()
      requires Shape() && Fetch(Su(), Mach(), READ) && sp >= 1
      modifies this`sp, this`ip, stack, text`pc
      ensures Shape() && Running(Mach()) == old(Step(Su(), Mach()))
    {
      hide Step, LoadWord, ReadEnd;
      ghost var su, m := Su(), Mach();
      var n := Pop();
      ghost var rest := stack[..sp];
      StepRead(su, m, rest, n);
      var v := Load(n);
      Push(v);
      text.pc := text.pc + 1;
    }

    /** The loop of OP_CHOP */
    method ChopOut(n: int)
      modifies this`obuf
      ensures obuf == Chop(old(obuf), n)
    {
      var v := n;
      while v > 0 && |obuf| > 0
        invariant Chop(obuf, v) == Chop(old(obuf), n)
        decreases |obuf|
      {
        obuf := obuf[..|obuf| - 1];
        v := v - 1;
      }
      assert Chop(obuf, v) == obuf;
    }

    /** The loop of OP_PAD */
    method PadOut(n: int)
      modifies this`obuf
      ensures obuf == old(obuf) + Spaces(n)
    {
      var v := n;
      while v > 0
        invariant v <= Max(n, 0) || v == n
        invariant obuf == old(obuf) + Spaces(Max(n, 0) - Max(v, 0))
        decreases v
      {
        obuf := obuf + [' ' as int];
        v := v - 1;
      }
    }

    /** OP_CHOP and OP_PAD */
    method DispatchChopPad(op: byte)
      requires Shape() && Fetch(Su(), Mach(), op) && op in {CHOP, PAD} && sp >= 1
      modifies this`sp, this`obuf, text`pc
      ensures Shape() && Running(Mach()) == old(Step(Su(), Mach()))
    {
      hide Step;
      ghost var su, m := Su(), Mach();
      var n := Pop();
      StepPadChop(su, m, stack[..sp], n);
      if op == CHOP {
        ChopOut(n);
      } else {
        PadOut(n);
      }
      text.pc := text.pc + 1;
    }

    /** OP_CONV: vm_conv may throw, which leaves the program counter where it is */
    method DispatchConv() returns (d: Dispatched)
      requires Shape() && Fetch(Su(), Mach(), CONV) && sp >= 5
      modifies this`sp, this`obuf, text`pc
      ensures Shape()
      ensures Settles(d, Mach(), old(Step(Su(), Mach())))
    {
      hide Step;
      ghost var su, m := Su(), Mach();
      var fc := Pop();
      var prec := Pop();
      var width := Pop();
      var flags := Pop();
      var word := Pop();
      ghost var rest := stack[..sp];
      assert m.stack == rest + [word, flags, width, prec, fc];
      StepConv(su, m, rest, word, flags, width, prec, fc);
      var c := VmConv(Su(), ip, flags, width, prec, fc, word);
      match c
      case Rejected(e) => return Trapped(e);
      case Converted(bytes) =>
        obuf := obuf + bytes;
        text.pc := text.pc + 1;
        return Next;
    }

    /** vm_getc */
    method TakeByte() returns (b: byte)
      requires Shape()
      modifies this`ip
      ensures Shape() && b == GetC(old(Su()), old(ip)) && ip == AfterGetC(old(Su()), old(ip))
    {
      b := 0;
      if ip < ipe {
        b := ibase[ip];
        ip := ip + 1;
      }
    }

    /** The opcodes that neither read nor write the stack */
    method DispatchPlain(op: byte)
      requires Shape() && Fetch(Su(), Mach(), op) && op in {NOOP, PUTC, RESET, XBYTE2, PBYTE, XADDR7, XADDR8}
      requires Step(Su(), Mach()).Running?
      modifies this`ip, this`obuf, text`pc
      ensures Shape() && Running(Mach()) == old(Step(Su(), Mach()))
    {
      hide HexByte, Addr7, Addr8, ToPrint;
      var b;
      if op == PUTC {
        text.pc := text.pc + 1;
        obuf := obuf + [text.code[text.pc]];
      } else if op == RESET {
        ip := 0;
      } else if op == XBYTE2 {
        b := TakeByte();
        obuf := obuf + HexByte(b);
      } else if op == PBYTE {
        b := TakeByte();
        obuf := obuf + [ToPrint(b)];
      } else if op == XADDR7 {
        obuf := obuf + Addr7(address + ip);
      } else if op == XADDR8 {
        obuf := obuf + Addr8(address + ip);
      }
      text.pc := text.pc + 1;
    }

    /** OP_JMP */
    method DispatchJmp()
      requires Shape() && Fetch(Su(), Mach(), JMP) && sp >= 2
      requires Top(Mach(), 1) != 0 ==> 0 <= Top(Mach(), 0) < CODE_SIZE
      modifies this`sp, text`pc
      ensures Shape() && Running(Mach()) == old(Step(Su(), Mach()))
    {
      hide Step;
      ghost var su, m := Su(), Mach();
      var to := Pop();
      var c := Pop();
      ghost var rest := stack[..sp];
      assert m.stack == rest + [c, to];
      StepJmp(su, m, rest, c, to);
      if c != 0 {
        text.pc := to % CODE_SIZE;
      } else {
        text.pc := text.pc + 1;
      }
    }

    /** One opcode of vm_exec */
    method Dispatch() returns (d: Dispatched)
      requires Shape() && Step(Su(), Mach()) != Crashed
      modifies this`sp, this`ip, this`obuf, stack, text`pc
      ensures Shape() && Settles(d, Mach(), old(Step(Su(), Mach())))
    {
      ghost var su, m := Su(), Mach();
      StepKinds(su, m);
      Depth(su, m);
      hide Step;
      var op := text.code[text.pc];
      d := Next;
      if op == HALT {
        d := Stop;
      } else if op == TRAP {
        d := Trapped(OOPS);
      } else if op == CONV {
        d := DispatchConv();
      } else if op == JMP {
        DispatchJmp();
      } else if op == READ {
        DispatchRead();
      } else if op == CHOP || op == PAD {
        DispatchChopPad(op);
      } else if op == NEG {
        DispatchNeg();
      } else if op == NOT {
        DispatchNot();
      } else if op == POP {
        DispatchPop();
      } else if op == DUP {
        DispatchDup();
      } else if op == SUB || op == ADD || op == OR || op == LT {
        DispatchBinary(op);
      } else if op == SWAP {
        DispatchSwap();
      } else if op == COUNT || (PC <= op && op <= I32) {
        DispatchPush(op);
      } else {
        DispatchPlain(op);
      }
    }

    /** vm_exec, for a machine that stops after n steps or fewer */
    method Exec(ghost n: nat) returns (r: Status)
      requires Shape()
      requires var o := Run(Su(), Mach(), n); o.Halted? || o.Thrown?
      modifies this`sp, this`ip, this`obuf, stack, text`pc
      ensures Shape()
      ensures match old(Run(Su(), Mach(), n))
        case Halted(m) => r == Ok && Mach() == m
        case Thrown(e, inp, out) => r == Throw(e) && ip == inp && obuf == out
        case _ => false
    {
      hide Step;
      ghost var k := n;
      ghost var su, end := Su(), Run(Su(), Mach(), n);
      while true
        invariant Shape() && Su() == su && Run(su, Mach(), k) == end
        decreases k
      {
        assert k > 0 && Step(su, Mach()) != Crashed;
        var d := Dispatch();
        match d
        case Next => k := k - 1;
        case Stop => return Ok;
        case Trapped(e) => return Throw(e);
      }
    }

    ghost predicate Compiled()
      reads this, text, text.code
    {
      && Shape() && sp == 0
      && ValidProgram(prog) && |LinesCode(prog)| < CODE_SIZE && text.code[..] == Image(prog)
    }

    ghost function Cfg(): Config
      reads this
    {
      Config(prog, bigEndian, printf, SLOTS, base)
    }

    /** What was read back together with what still waits is the output until the last flush and
        that of the blocks complete since then, unless one of them robbed the output before it. */
    ghost predicate Accounts()
      requires Compiled() && blocksize > 0
      reads this, text, text.code
    {
      var blocks := Cut(fed, blocksize).blocks;
      && address == base + AddressOf(|blocks|, blocksize)
      && Feed(Cfg(), blocks, blocksize).Fine?
      && (FeedRobs(Cfg(), blocks, blocksize) ==> robbed)
      && (!robbed ==> drained + obuf == lead + Feed(Cfg(), blocks, blocksize).s.out)
    }

    ghost predicate Sized()
      reads this, text
    {
      text.code != ibase && ibase.Length == ipe == blocksize && BlockSize(prog) <= blocksize
    }

    /** Between calls the input buffer holds the bytes that complete no block. */
    ghost predicate Valid()
      reads this, text, text.code, ibase
    {
      && Compiled() && Sized()
      && (blocksize == 0 ==> ip == 0)
      && (blocksize > 0 ==> ibase[..ip] == Cut(fed, blocksize).rest && ip < blocksize && Accounts())
    }

    /** An empty input buffer of the right size: the stream starts here. */
    ghost method StartHere()
      requires Compiled() && Sized() && ip == 0
      modifies this`fed, this`base, this`lead, this`robbed
      ensures Valid() && fed == [] && base == address && lead == drained + obuf && !robbed
    {
      hide Image, LinesCode, Cut, Feed, ValidProgram, BlockSize, AddressOf;
      fed, base, lead, robbed := [], address, drained + obuf, false;
      if blocksize > 0 {
        NothingFed(Cfg(), blocksize);
        assert lead + [] == lead;
      }
    }

    /** hxd_compile on a context that has run nothing yet; nopad is HXD_NOPADDING and big the byte order */
    method Compile(fmt: CString, nopad: bool, big: bool) returns (r: Status)
      requires Shape() && sp == 0
      modifies this, text, text.code
      ensures Shape()
      ensures r.Ok? ==> Parse(fmt, nopad).Parsed? && prog == Parse(fmt, nopad).value
      ensures r.Ok? ==> blocksize == Max(old(blocksize), BlockSize(prog)) && fresh(ibase)
      ensures r.Ok? ==> Valid() && fed == drained == lead == obuf == [] && base == 0 && !robbed && bigEndian == big
      ensures r.Ok? <==> Parse(fmt, nopad).Parsed? && |LinesCode(Parse(fmt, nopad).value)| < CODE_LIMIT
      ensures r.Throw? ==>
        && (forall k :: 0 <= k < CODE_SIZE ==> text.code[k] == 0) && text.pc == 0
        && ip == address == 0 && obuf == [] && ipe == old(ipe) && ibase == old(ibase)
        && r == Throw(if Parse(fmt, nopad).Parsed? then NOMEM else r.error)
        && (Parse(fmt, nopad).Refused? ==> r.error == Parse(fmt, nopad).error || r.error == NOMEM)
    {
      hide Image, LinesCode, ValidProgram, BlockSize, ParseLines;
      address, ip, obuf, text.pc := 0, 0, [], 0;
      bigEndian := big;
      var size;
      r, size := text.Compile(fmt, nopad);
      if r.Ok? {
        ParseValid(fmt, nopad);
        Install(Parse(fmt, nopad).value, size);
      }
    }

    /** The end of hxd_compile: the input buffer takes the size of the largest block so far. */
    method Install(ghost p: Program, size: nat)
      requires Shape() && sp == 0 && address == ip == 0 && obuf == [] && size == BlockSize(p)
      requires ValidProgram(p) && |LinesCode(p)| < CODE_SIZE && text.code[..] == Image(p)
      modifies this
      ensures Shape() && prog == p && blocksize == Max(old(blocksize), size) && fresh(ibase)
      ensures Valid() && fed == drained == lead == obuf == [] && base == 0 && !robbed && bigEndian == old(bigEndian)
    {
      hide Image, LinesCode, ValidProgram, BlockSize, Valid, Accounts, Cfg;
      if size > blocksize {
        blocksize := size;
      }
      ibase := new byte[blocksize];
      ipe := blocksize;
      prog, fed, drained, base, lead := p, [], [], 0, [];
      StartHere();
    }

    /** The program from its first opcode, on a full block or the short one of hxd_flush */
    method ExecBlock() returns (r: Status)
      requires Compiled()
      modifies this`sp, this`ip, this`obuf, stack, text`pc
      ensures Shape()
      ensures match DoLines(SetupFor(Cfg(), ibase[..ipe], address), COMPILED, prog, State(0, old(obuf)))
        case Fine(s) => r == Ok && Compiled() && obuf == s.out && ip == s.inp
        case Fault(e, s) => r == Throw(e) && obuf == s.out && ip == s.inp
    {
      hide Reaches, Run, Step, DoLines, LinesCode, Image;
      ip := 0;
      text.pc := 0;
      ghost var su := SetupFor(Cfg(), ibase[..ipe], address);
      assert su == Su() && Start(obuf) == Mach();
      CompilerCorrect(su, prog, obuf);
      ghost var o := Verdict(|LinesCode(prog)|, DoLines(su, COMPILED, prog, State(0, obuf)));
      ghost var n := Steps(su, Start(obuf), o);
      r := Exec(n);
    }

    /** memcpy into the input buffer */
    method CopyIn(chunk: seq<byte>)
      requires Shape() && ip + |chunk| <= ipe
      modifies this`ip, ibase
      ensures Shape() && ip == old(ip) + |chunk| && ibase[..ip] == old(ibase[..ip]) + chunk
    {
      forall k | 0 <= k < |chunk| {
        ibase[ip + k] := chunk[k];
      }
      ip := ip + |chunk|;
    }

    /** Running a full input buffer: one more block is fed. */
    method RunBlock(ghost blocks: seq<seq<byte>>, ghost block: seq<byte>) returns (r: Status)
      requires Compiled() && Sized() && blocksize > 0 && Accounts()
      requires blocks == Cut(fed, blocksize).blocks && block == ibase[..ipe]
      modifies this`sp, this`ip, this`obuf, this`robbed, stack, text`pc
      ensures var total := Feed(Cfg(), blocks + [block], blocksize);
        if total.Fine? then r == Ok && Compiled() && (!robbed ==> drained + obuf == lead + total.s.out)
        else r == Throw(total.error)
      ensures old(robbed) || FeedRobs(Cfg(), blocks + [block], blocksize) <==> robbed
    {
      hide Image, LinesCode, Cut, Feed, ValidProgram, BlockSize, FeedRobs, BlockRobs, DoLines;
      FeedAnother(Cfg(), blocks, block, blocksize, drained, obuf, lead);
      robbed := robbed || BlockRobs(Cfg(), block, address);
      r := ExecBlock();
    }

    /** The buffer starts over. */
    method FinishBlock(ghost chunk: seq<byte>) returns (r: Status)
      requires Compiled() && Sized() && blocksize > 0 && Accounts()
      requires ip == ipe && ibase[..ipe] == Cut(fed, blocksize).rest + chunk
      modifies this`sp, this`ip, this`obuf, this`address, this`fed, this`robbed, stack, text`pc
      ensures var total := Feed(Cfg(), Cut(old(fed) + chunk, blocksize).blocks, blocksize);
        if total.Fine? then r == Ok && Valid() && fed == old(fed) + chunk && ip == 0 else r == Throw(total.error)
      ensures robbed ==> old(robbed) || FeedRobs(Cfg(), Cut(old(fed) + chunk, blocksize).blocks, blocksize)
    {
      hide Image, LinesCode, Cut, Feed, ValidProgram, BlockSize, FeedRobs, AddressOf;
      ghost var c := Cut(fed, blocksize);
      CutMore(fed, chunk, blocksize);
      NextAddress(|c.blocks|, blocksize);
      r := RunBlock(c.blocks, ibase[..ipe]);
      if r.Throw? { return; }
      ip := 0;
      address := address + blocksize;
      fed := fed + chunk;
    }

    /** One turn of the loop of hxd_write: as much as the block still takes. */
    method WriteSome(chunk: seq<byte>) returns (r: Status)
      requires Valid() && blocksize > 0 && ip + |chunk| <= ipe
      modifies this`sp, this`ip, this`obuf, this`address, this`fed, this`robbed, stack, text`pc, ibase
      ensures var total := Feed(Cfg(), Cut(old(fed) + chunk, blocksize).blocks, blocksize);
        if total.Fine? then r == Ok && Valid() && fed == old(fed) + chunk && (ip == 0 || ip < ipe)
        else r == Throw(total.error)
      ensures robbed ==> old(robbed) || FeedRobs(Cfg(), Cut(old(fed) + chunk, blocksize).blocks, blocksize)
    {
      hide Image, LinesCode, Cut, Feed, ValidProgram, BlockSize, FeedRobs, DoLines;
      CutMore(fed, chunk, blocksize);
      CopyIn(chunk);
      r := Ok;
      if ip < ipe {
        fed := fed + chunk;
        return;
      }
      r := FinishBlock(chunk);
    }

    /** hxd_write: the same blocks are run, at the same addresses and with the same output,
        however the input is cut into calls. */
    method Write(src: seq<byte>) returns (r: Status)
      requires Valid()
      modifies this`sp, this`ip, this`obuf, this`address, this`fed, this`robbed, stack, text`pc, ibase
      ensures blocksize == 0 ==> r == Throw(OOPS)
      ensures blocksize > 0 ==>
        var total := Feed(Cfg(), Cut(old(fed) + src, blocksize).blocks, blocksize);
        if total.Fine? then r == Ok && Valid() && fed == old(fed) + src else r == Throw(total.error)
      ensures blocksize > 0 && robbed ==> old(robbed) || FeedRobs(Cfg(), Cut(old(fed) + src, blocksize).blocks, blocksize)
    {
      hide Image, LinesCode, Cut, Feed, ValidProgram, BlockSize, DoLines, FeedRobs;
      if ipe == 0 {
        return Throw(OOPS);
      }
      var p := 0;
      r := Ok;
      assert src[..0] == [] && fed + [] == fed;
      while p < |src|
        invariant 0 <= p <= |src| && r == Ok && Valid() && fed == old(fed) + src[..p]
        invariant robbed ==> old(robbed) || FeedRobs(Cfg(), Cut(old(fed) + src, blocksize).blocks, blocksize)
      {
        var n := Min(|src| - p, ipe - ip);
        var chunk := src[p..p + n];
        assert old(fed) + src[..p] + chunk == old(fed) + src[..p + n];
        assert old(fed) + src[..p + n] + src[p + n..] == old(fed) + src;
        StreamStops(Cfg(), old(fed) + src[..p + n], src[p + n..], blocksize);
        ghost var part := Cut(old(fed) + src[..p + n], blocksize).blocks;
        if FeedRobs(Cfg(), part, blocksize) { PrefixRobs(Cfg(), old(fed) + src[..p + n], src[p + n..], blocksize); }
        r := WriteSome(chunk);
        if r.Throw? { return; }
        p := p + n;
      }
      assert src[..p] == src;
    }

    /** hxd_read: the oldest bytes of the output */
    method Read(lim: nat) returns (dst: seq<byte>)
      requires Valid()
      modifies this`obuf, this`drained
      ensures Valid() && dst + obuf == old(obuf) && |dst| == Min(lim, |old(obuf)|)
      ensures drained == old(drained) + dst
    {
      hide Image, LinesCode, Cut, Feed, ValidProgram, BlockSize, FeedRobs;
      var n := Min(lim, |obuf|);
      dst := obuf[..n];
      ghost var was := obuf;
      obuf := obuf[n..];
      assert drained + was == drained + dst + obuf;
      drained := drained + dst;
    }

    /** hxd_flush: the short block, as it is; the next block starts at the same address. */
    method Flush() returns (r: Status)
      requires Valid()
      modifies this`sp, this`ip, this`ipe, this`obuf, this`fed, this`base, this`lead, this`robbed, stack, text`pc
      ensures old(ip) == 0 ==> r == Ok && obuf == old(obuf)
      ensures old(ip) > 0 ==> blocksize > 0
      ensures old(ip) > 0 ==>
        match DoLines(SetupFor(Cfg(), Cut(old(fed), blocksize).rest, address), COMPILED, prog, State(0, old(obuf)))
        case Fine(s) => r == Ok && obuf == s.out
        case Fault(e, s) => r == Throw(e) && obuf == s.out
      ensures r.Ok? ==> Valid() && ip == 0 && fed == [] && base == address && lead == drained + obuf && !robbed
    {
      hide Image, LinesCode, Cut, Feed, ValidProgram, BlockSize, DoLines, FeedRobs;
      r := Ok;
      if ip > 0 {
        var pe := ipe;
        ipe := ip;
        r := ExecBlock();
        if r.Throw? { return; }
        ip := 0;
        ipe := pe;
      }
      StartHere();
    }
  }

  datatype Call = Write(src: seq<byte>) | Read(lim: nat) | Flush

  /** What calls come to: the output until the last flush, the address then and the input since;
      or the error of a block; or a block that chops more than it has written, so that its output
      depends on what was read back before. */
  datatype Progress = Going(lead: seq<byte>, base: nat, fed: seq<byte>) | Stopped(error: Error) | Robbed

  function Flushed(cfg: Config, size: nat, lead: seq<byte>, fed: seq<byte>): Progress
    requires size > 0 && |LinesCode(cfg.prog)| < CODE_SIZE && Feed(cfg, Cut(fed, size).blocks, size).Fine?
  {
    var c := Cut(fed, size);
    var all := lead + Feed(cfg, c.blocks, size).s.out;
    var address := cfg.base + AddressOf(|c.blocks|, size);
    var su := SetupFor(cfg, c.rest, address);
    if c.rest == [] then Going(all, address, [])
    else if BlockRobs(cfg, c.rest, address) then Robbed
    else
      match DoLines(su, COMPILED, cfg.prog, State(0, []))
      case Fine(s) => Going(all + s.out, address, [])
      case Fault(e, _) => Stopped(e)
  }

  /** The calls one after the other, from an empty context */
  function After(cfg: Config, size: nat, calls: seq<Call>): (r: Progress)
    requires size > 0 && |LinesCode(cfg.prog)| < CODE_SIZE
    ensures r.Going? ==> Feed(cfg.(base := r.base), Cut(r.fed, size).blocks, size).Fine?
  {
    if calls == [] then
      NothingFed(cfg.(base := 0), size);
      Going([], 0, [])
    else
      match After(cfg, size, calls[..|calls| - 1])
      case Going(lead, base, fed) =>
        Onward(cfg.(base := base), size, lead, fed, calls[|calls| - 1])
      case Stopped(e) => Stopped(e)
      case Robbed => Robbed
  }

  /** One call after the others */
  function Onward(cfg: Config, size: nat, lead: seq<byte>, fed: seq<byte>, call: Call): (r: Progress)
    requires size > 0 && |LinesCode(cfg.prog)| < CODE_SIZE && Feed(cfg, Cut(fed, size).blocks, size).Fine?
    ensures r.Going? ==> Feed(cfg.(base := r.base), Cut(r.fed, size).blocks, size).Fine?
  {
    match call
    case Write(src) =>
      var total := Feed(cfg, Cut(fed + src, size).blocks, size);
      if total.Fault? then Stopped(total.error)
      else if FeedRobs(cfg, Cut(fed + src, size).blocks, size) then Robbed
      else Going(lead, cfg.base, fed + src)
    case Read(_) => Going(lead, cfg.base, fed)
    case Flush =>
      var r := Flushed(cfg, size, lead, fed);
      if r.Going? then
        NothingFed(cfg.(base := r.base), size);
        r
      else r
  }

  /** One call does what it comes to. */
  method Perform(h: Hexdump, call: Call) returns (r: Status, got: seq<byte>)
    requires h.Valid() && h.blocksize > 0
    modifies h`sp, h`ip, h`ipe, h`obuf, h`address, h`fed, h`base, h`lead, h`robbed, h`drained, h.stack, h.text`pc, h.ibase
    ensures h.drained == old(h.drained) + got
    ensures !old(h.robbed) ==>
      match old(Onward(h.Cfg(), h.blocksize, h.lead, h.fed, call))
      case Going(lead, base, fed) => r == Ok && h.Valid() && h.lead == lead && h.base == base && h.fed == fed && !h.robbed
      case Stopped(e) => r == Throw(e)
      case Robbed => true
    ensures r.Ok? ==> h.Valid()
  {
    hide Image, LinesCode, Cut, Feed, ValidProgram, BlockSize, DoLines, FeedRobs, ProgramRobs;
    got, r := [], Ok;
    match call
    case Write(src) => r := h.Write(src);
    case Read(lim) => got := h.Read(lim);
    case Flush =>
      ghost var c := Cut(h.fed, h.blocksize);
      if !BlockRobs(h.Cfg(), c.rest, h.address) {
        AddsBehind(SetupFor(h.Cfg(), c.rest, h.address), h.prog, h.obuf);
      }
      r := h.Flush();
  }

  /** Streaming independence: whatever the cuts between hxd_write calls, and wherever hxd_read and
      hxd_flush calls come between them, all that is read back, followed by what still waits, is
      the output of the blocks of the whole input, each flush ending one short, and the rest is
      buffered. */
  method Session(h: Hexdump, calls: seq<Call>) returns (r: Status, got: seq<byte>)
    requires h.Valid() && h.blocksize > 0 && h.fed == h.drained == h.lead == [] && h.base == 0 && !h.robbed
    modifies h`sp, h`ip, h`ipe, h`obuf, h`address, h`fed, h`base, h`lead, h`robbed, h`drained, h.stack, h.text`pc, h.ibase
    ensures match After(old(h.Cfg()), h.blocksize, calls)
      case Going(lead, base, fed) =>
        && r == Ok && h.Valid()
        && got + h.obuf == lead + Feed(old(h.Cfg()).(base := base), Cut(fed, h.blocksize).blocks, h.blocksize).s.out
        && h.ibase[..h.ip] == Cut(fed, h.blocksize).rest
      case Stopped(e) => r == Throw(e)
      case Robbed => true
  {
    hide Image, LinesCode, Cut, Feed, ValidProgram, BlockSize, FeedRobs, Onward;
    got, r := [], Ok;
    ghost var cfg, size := h.Cfg(), h.blocksize;
    for k := 0 to |calls|
      invariant h.Valid() && r == Ok && got == h.drained && h.Cfg() == cfg.(base := h.base)
      invariant var p := After(cfg, size, calls[..k]); (p == Going(h.lead, h.base, h.fed) && !h.robbed) || p == Robbed
    {
      assert calls[..k + 1][..k] == calls[..k];
      ghost var p := After(cfg, size, calls[..k + 1]);
      if !p.Going? { AfterStops(cfg, size, calls, k + 1); }
      var dst;
      r, dst := Perform(h, calls[k]);
      if r.Throw? { return; }
      got := got + dst;
    }
    assert calls[..|calls|] == calls;
  }

  /** From a format string to the output: a fresh context compiles the format exactly when it
      parses and its code fits, and then any calls come to what the direct interpreter makes of the
      parsed program. */
  method Dump(fmt: CString, nopad: bool, big: bool, printf: Printf, calls: seq<Call>)
    returns (h: Hexdump, compiled: Status, r: Status, got: seq<byte>)
    ensures compiled.Ok? <==> Parse(fmt, nopad).Parsed? && |LinesCode(Parse(fmt, nopad).value)| < CODE_LIMIT
    ensures compiled.Ok? ==> h.blocksize == Max(0, BlockSize(Parse(fmt, nopad).value))
    ensures compiled.Ok? && h.blocksize > 0 ==>
      var cfg := Config(Parse(fmt, nopad).value, big, printf, SLOTS, 0);
      match After(cfg, h.blocksize, calls)
      case Going(lead, base, fed) =>
        r == Ok && got + h.obuf == lead + Feed(cfg.(base := base), Cut(fed, h.blocksize).blocks, h.blocksize).s.out
      case Stopped(e) => r == Throw(e)
      case Robbed => true
  {
    hide Image, LinesCode, Cut, Feed, ValidProgram, BlockSize, ParseLines, After;
    h := new Hexdump(printf);
    r, got := Ok, [];
    compiled := h.Compile(fmt, nopad, big);
    if compiled.Ok? && h.blocksize > 0 {
      r, got := Session(h, calls);
    }
  }

  /** Once the calls have come to an end, they stay there. */
  lemma {:induction false} AfterStops(cfg: Config, size: nat, calls: seq<Call>, k: nat)
    requires size > 0 && |LinesCode(cfg.prog)| < CODE_SIZE && k <= |calls| && !After(cfg, size, calls[..k]).Going?
    ensures After(cfg, size, calls) == After(cfg, size, calls[..k])
    decreases |calls| - k
  {
    hide Onward, LinesCode;
    if k == |calls| {
      assert calls[..k] == calls;
    } else {
      assert calls[..k + 1][..k] == calls[..k];
      AfterStops(cfg, size, calls, k + 1);
    }
  }

  /** Everything a sequence of calls writes */
  function Written(calls: seq<Call>): seq<byte> {
    if calls == [] then []
    else
      var last := calls[|calls| - 1];
      Written(calls[..|calls| - 1]) + if last.Write? then last.src else []
  }

  /** Without a flush, it is the blocks of everything that is written. */
  lemma {:induction false} AfterWrites(cfg: Config, size: nat, calls: seq<Call>)
    requires size > 0 && |LinesCode(cfg.prog)| < CODE_SIZE && cfg.base == 0
    requires (forall k :: 0 <= k < |calls| ==> !calls[k].Flush?) && !FeedRobs(cfg, Cut(Written(calls), size).blocks, size)
    ensures var total := Feed(cfg, Cut(Written(calls), size).blocks, size);
      After(cfg, size, calls) == if total.Fine? then Going([], 0, Written(calls)) else Stopped(total.error)
  {
    hide Cut, Feed, LinesCode, FeedRobs;
    if calls == [] {
      NothingFed(cfg, size);
    } else {
      var n := |calls| - 1;
      var last := calls[n];
      var src := if last.Write? then last.src else [];
      assert Written(calls) == Written(calls[..n]) + src;
      if FeedRobs(cfg, Cut(Written(calls[..n]), size).blocks, size) { PrefixRobs(cfg, Written(calls[..n]), src, size); }
      AfterWrites(cfg, size, calls[..n]);
      StreamStops(cfg, Written(calls[..n]), src, size);
      assert Written(calls[..n]) + [] == Written(calls[..n]);
      assert cfg.(base := 0) == cfg;
    }
  }

  lemma PrefixRobs(cfg: Config, data: seq<byte>, more: seq<byte>, size: nat)
    requires size > 0 && |LinesCode(cfg.prog)| < CODE_SIZE && FeedRobs(cfg, Cut(data, size).blocks, size)
    ensures FeedRobs(cfg, Cut(data + more, size).blocks, size)
  {
    CutPrefix(data, more, size);
    FeedRobsLater(cfg, Cut(data + more, size).blocks, |Cut(data, size).blocks|, size);
  }

  /** Running one more block behind any drained output is feeding one more block. */
  lemma FeedAnother(cfg: Config, blocks: seq<seq<byte>>, block: seq<byte>, size: nat, pre: seq<byte>, out: seq<byte>, lead: seq<byte>)
    requires ValidProgram(cfg.prog) && |LinesCode(cfg.prog)| < CODE_SIZE && Feed(cfg, blocks, size).Fine?
    ensures var address := cfg.base + AddressOf(|blocks|, size);
      var f, r := Feed(cfg, blocks + [block], size), DoLines(SetupFor(cfg, block, address), COMPILED, cfg.prog, State(0, out));
      && (r.Fine? <==> f.Fine?) && (r.Fault? ==> f.Fault? && r.error == f.error)
      && (lead + Feed(cfg, blocks, size).s.out == pre + out && !BlockRobs(cfg, block, address) ==> lead + f.s.out == pre + r.s.out)
      && (FeedRobs(cfg, blocks + [block], size) <==> FeedRobs(cfg, blocks, size) || BlockRobs(cfg, block, address))
  {
    hide DoLines, Image, LinesCode, ValidProgram, ProgramRobs;
    assert (blocks + [block])[..|blocks|] == blocks;
    var su := SetupFor(cfg, block, cfg.base + AddressOf(|blocks|, size));
    var all := Feed(cfg, blocks, size).s.out;
    SameFault(su, cfg.prog, out, all);
    if !BlockRobs(cfg, block, cfg.base + AddressOf(|blocks|, size)) {
      AddsBehind(su, cfg.prog, out);
      AddsBehind(su, cfg.prog, all);
      if lead + all == pre + out {
        JoinTwice(lead, all, pre, out, DoLines(su, COMPILED, cfg.prog, State(0, [])).s.out);
      }
    }
  }

  lemma NextAddress(k: nat, size: nat)
    ensures AddressOf(k + 1, size) == AddressOf(k, size) + size
  {
  }

  lemma JoinTwice(a: seq<byte>, b: seq<byte>, c: seq<byte>, d: seq<byte>, more: seq<byte>)
    requires a + b == c + d
    ensures a + (b + more) == c + (d + more)
  {
    assert a + (b + more) == a + b + more;
    assert c + (d + more) == c + d + more;
  }

  /** Once a prefix of the input fails, all of it does. */
  lemma StreamStops(cfg: Config, data: seq<byte>, more: seq<byte>, size: nat)
    requires size > 0 && |LinesCode(cfg.prog)| < CODE_SIZE
    ensures var r := Feed(cfg, Cut(data, size).blocks, size);
      r.Fault? ==> Feed(cfg, Cut(data + more, size).blocks, size) == r
  {
    CutPrefix(data, more, size);
    var r := Feed(cfg, Cut(data, size).blocks, size);
    if r.Fault? {
      FeedStops(cfg, Cut(data + more, size).blocks, |Cut(data, size).blocks|, size);
    }
  }

  lemma ParseValid(fmt: CString, nopad: bool)
    ensures var p := Parse(fmt, nopad); p.Parsed? ==> ValidProgram(p.value)
  {
    LinesValid(fmt, 0, nopad, []);
  }

  lemma NothingFed(cfg: Config, size: nat)
    requires size > 0 && |LinesCode(cfg.prog)| < CODE_SIZE
    ensures Cut([], size) == Cutting([], []) && Feed(cfg, [], size) == Fine(State(0, [])) && AddressOf(0, size) == 0
  {
  }

  /** How many steps a run takes */
  ghost function Steps(su: Setup, m: Machine, o: Outcome): (n: nat)
    requires Reaches(su, m, o)
    ensures Run(su, m, n) == o
  {
    var n: nat :| Run(su, m, n) == o;
    n
  }

  /** A push finds a slot, and its operands inside the code. */
  predicate PushFits(su: Setup, m: Machine)
    requires Fetches(su, m)
  {
    var op := su.code[m.pc];
    var left := |su.code| - m.pc;
    |m.stack| < su.slots && (op == I8 ==> left > 1) && (op == I16 ==> left > 2) && (op == I32 ==> left > 4)
  }

  /** What a step that does not crash finds on the stack. */
  lemma Depth(su: Setup, m: Machine)
    requires Fetches(su, m) && Step(su, m) != Crashed
    ensures var op := su.code[m.pc];
      && (op == CONV ==> |m.stack| >= 5)
      && (op in {SUB, ADD, OR, LT, SWAP, JMP} ==> |m.stack| >= 2)
      && (op in {NEG, NOT, POP, DUP, READ, CHOP, PAD} ==> |m.stack| >= 1)
      && (op == DUP ==> |m.stack| < su.slots)
      && (PC <= op <= I32 || op == COUNT ==> PushFits(su, m))
      && (op == JMP ==> Top(m, 1) != 0 ==> 0 <= Top(m, 0) < |su.code|)
  {
  }

  lemma StepPushes(su: Setup, m: Machine, op: byte, v: int, width: nat)
    requires Fetch(su, m, op) && |m.stack| < su.slots && m.pc + width <= |su.code|
    requires
      || (op == PC && v == m.pc && width == 1)
      || (op in {TRUE, ONE} && v == 1 && width == 1)
      || (op in {FALSE, ZERO} && v == 0 && width == 1)
      || (op == TWO && v == 2 && width == 1)
      || (op == COUNT && v == |su.block| - m.inp && width == 1)
      || (op == I8 && width == 2 && v == su.code[m.pc + 1])
      || (op == I16 && width == 3 && v == Join(su.code[m.pc + 1], su.code[m.pc + 2]))
      || (op == I32 && width == 5 && v == Join(su.code[m.pc + 3], su.code[m.pc + 4]))
    ensures Step(su, m) == Running(Pushed(m, v, width))
  {
    hide Join;
  }

  /** Which opcodes can halt or throw */
  lemma StepKinds(su: Setup, m: Machine)
    requires Step(su, m) != Crashed
    ensures Fetches(su, m)
    ensures var op := su.code[m.pc];
      && op <= XADDR8
      && (op == HALT ==> Step(su, m) == Halted(m))
      && (op == TRAP ==> Step(su, m) == Thrown(OOPS, m.inp, m.out))
      && (op != HALT && op != TRAP && op != CONV ==> Step(su, m).Running?)
  {
  }

  /** What a dispatch reports and leaves behind, against a step of the machine. */
  ghost predicate Settles(d: Dispatched, m: Machine, o: Outcome) {
    match o
    case Running(m') => d == Next && m == m'
    case Halted(m') => d == Stop && m == m'
    case Thrown(e, inp, out) => d == Trapped(e) && m.inp == inp && m.out == out
    case Crashed => false
  }
}
