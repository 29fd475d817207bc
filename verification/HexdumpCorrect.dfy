/** Compiler correctness: running the bytecode of a format does what the direct
    interpreter of its units does, within six stack slots, and stops. */
module HexdumpCorrect {
  import opened Arithmetic

  import opened HexdumpMachine
  import opened HexdumpFormat
  import opened HexdumpReference

  // ------------------------------------------------------ states of the machine

  /** Room for k more stack slots. */
  predicate Room(su: Setup, m: Machine, k: nat) {
    m.inp <= |su.block| && |m.stack| + k <= su.slots
  }

  function Pushed(m: Machine, v: int, width: nat): Machine {
    m.(stack := m.stack + [v], pc := m.pc + width)
  }

  // --------------------------------------------------------------- fragments

  lemma JoinParts(d: nat)
    ensures Join(Hi(d), Lo(d)) == d % 0x1_0000
  {
    var q := d / 256;
    assert d == 256 * q + d % 256;
    assert q == 256 * (q / 256) + q % 256;
    Remainder(d, 0x1_0000, q / 256, q % 256 * 256 + d % 256);
  }

  predicate Fetch(su: Setup, m: Machine, op: byte) {
    Fetches(su, m) && su.code[m.pc] == op
  }

  lemma StepImm8(su: Setup, m: Machine, v: byte)
    requires Room(su, m, 1)
    requires
      || (Fetch(su, m, ZERO) && v == 0)
      || (Fetch(su, m, ONE) && v == 1)
      || (Fetch(su, m, TWO) && v == 2)
    ensures Step(su, m) == Running(Pushed(m, v, 1))
  {
  }

  lemma StepOperand(su: Setup, m: Machine, v: int, width: nat)
    requires Room(su, m, 1) && m.pc + width <= |su.code|
    requires
      || (Fetch(su, m, I8) && width == 2 && v == su.code[m.pc + 1])
      || (Fetch(su, m, I16) && width == 3 && v == Join(su.code[m.pc + 1], su.code[m.pc + 2]))
      || (Fetch(su, m, I32) && width == 5 && v == Join(su.code[m.pc + 3], su.code[m.pc + 4]))
    ensures Step(su, m) == Running(Pushed(m, v, width))
  {
    hide Join;
  }

  lemma StepImm(su: Setup, m: Machine, d: nat, width: nat)
    requires Room(su, m, 1) && m.pc + width <= |su.code|
    requires
      || (Fetch(su, m, I8) && width == 2 && su.code[m.pc + 1] == d)
      || (Fetch(su, m, I16) && width == 3 && su.code[m.pc + 1] == Hi(d) && su.code[m.pc + 2] == Lo(d) && d < 0x1_0000)
      || (Fetch(su, m, I32) && width == 5 && su.code[m.pc + 3] == Hi(d) && su.code[m.pc + 4] == Lo(d) && d >= 0x1_0000)
    ensures Step(su, m) == Running(Pushed(m, Loaded(d), width))
  {
    hide Hi, Lo, Step, Join;
    JoinParts(d);
    StepOperand(su, m, Loaded(d), width);
  }

  lemma RunNat(su: Setup, m: Machine, i: nat)
    requires At(su.code, m.pc, NatCode(i)) && Int32(i) && Room(su, m, 1)
    ensures Step(su, m) == Running(Pushed(m, Loaded(i), |NatCode(i)|))
  {
    hide Step, Loaded, Hi, Lo;
    var b := NatCode(i);
    assert su.code[m.pc + 0] == b[0];
    if 0 <= i <= 2 {
      StepImm8(su, m, i);
      assert Loaded(i) == i by { LoadedSmall(i); }
    } else {
      assert su.code[m.pc + 1] == b[1];
      if i > 255 {
        assert su.code[m.pc + 2] == b[2];
      }
      if i > 65535 {
        assert su.code[m.pc + 3] == b[3] && su.code[m.pc + 4] == b[4];
      }
      StepImm(su, m, i, |b|);
    }
  }

  lemma LoadedSmall(i: int)
    requires -0x1_0000 < i < 0x1_0000
    ensures Loaded(i) == i
  {
  }

  lemma LoadedNeg(i: int)
    requires i >= 0
    ensures Loaded(-i) == -Loaded(i)
  {
  }

  lemma StepNeg(su: Setup, m: Machine, rest: seq<int>, v: int)
    requires Fetch(su, m, NEG) && m.stack == rest + [v] && |m.stack| <= su.slots
    ensures Step(su, m) == Running(m.(stack := rest + [-v], pc := m.pc + 1))
  {
    assert m.stack[..|m.stack| - 1] == rest;
  }

  lemma RunInt(su: Setup, m: Machine, i: int)
    requires At(su.code, m.pc, IntCode(i)) && Int32(i) && Room(su, m, 1)
    ensures Reaches(su, m, Running(Pushed(m, Loaded(i), |IntCode(i)|)))
  {
    hide Step, Loaded, NatCode;
    if i >= 0 {
      RunNat(su, m, i);
      One(su, m, Running(Pushed(m, Loaded(i), |IntCode(i)|)));
    } else {
      AtParts(su.code, m.pc, NatCode(-i), [NEG]);
      RunNat(su, m, -i);
      LoadedNeg(-i);
      var m1 := Pushed(m, Loaded(-i), |NatCode(-i)|);
      assert su.code[m1.pc] == [NEG][0];
      StepNeg(su, m1, m.stack, Loaded(-i));
      var m2 := Pushed(m, Loaded(i), |IntCode(i)|);
      One(su, m1, Running(m2));
      Then(su, m, m1, Running(m2));
    }
  }

  // ------------------------------------------- one opcode on a known stack top

  lemma StepBinary(su: Setup, m: Machine, rest: seq<int>, a: int, b: int, v: int)
    requires m.stack == rest + [a, b] && |m.stack| <= su.slots
    requires
      || (Fetch(su, m, SUB) && v == a - b)
      || (Fetch(su, m, ADD) && v == a + b)
      || (Fetch(su, m, OR) && v == Truth(a != 0 || b != 0))
      || (Fetch(su, m, LT) && v == Truth(a < b))
    ensures Step(su, m) == Running(m.(stack := rest + [v], pc := m.pc + 1))
  {
    assert m.stack[..|m.stack| - 2] == rest;
    assert Top(m, 0) == b && Top(m, 1) == a;
  }

  lemma StepUnary(su: Setup, m: Machine, rest: seq<int>, a: int, vs: seq<int>)
    requires m.stack == rest + [a] && |rest| + |vs| <= su.slots
    requires
      || (Fetch(su, m, NOT) && vs == [Truth(a == 0)])
      || (Fetch(su, m, DUP) && vs == [a, a])
      || (Fetch(su, m, POP) && vs == [])
    ensures Step(su, m) == Running(m.(stack := rest + vs, pc := m.pc + 1))
  {
    assert m.stack[..|m.stack| - 1] == rest;
    assert Top(m, 0) == a;
  }

  lemma StepSwap(su: Setup, m: Machine, rest: seq<int>, a: int, b: int)
    requires m.stack == rest + [a, b] && |m.stack| <= su.slots && Fetch(su, m, SWAP)
    ensures Step(su, m) == Running(m.(stack := rest + [b, a], pc := m.pc + 1))
  {
    assert m.stack[..|m.stack| - 2] == rest;
    assert Top(m, 0) == b && Top(m, 1) == a;
  }

  lemma StepJmp(su: Setup, m: Machine, rest: seq<int>, c: int, to: int)
    requires m.stack == rest + [c, to] && Fetch(su, m, JMP)
    requires c != 0 ==> 0 <= to < |su.code|
    ensures Step(su, m) == Running(m.(stack := rest, pc := if c != 0 then to else m.pc + 1))
  {
    assert m.stack[..|m.stack| - 2] == rest;
    assert Top(m, 0) == to && Top(m, 1) == c;
  }

  lemma StepRead(su: Setup, m: Machine, rest: seq<int>, n: int)
    requires m.stack == rest + [n] && |m.stack| <= su.slots && Fetch(su, m, READ)
    ensures var end := ReadEnd(su, m.inp, n);
            Step(su, m) == Running(m.(stack := rest + [LoadWord(su.bigEndian, su.block[m.inp..end])],
                                      pc := m.pc + 1, inp := end))
  {
    assert m.stack[..|m.stack| - 1] == rest;
    assert Top(m, 0) == n;
  }

  lemma StepPadChop(su: Setup, m: Machine, rest: seq<int>, n: int)
    requires m.stack == rest + [n] && (Fetch(su, m, PAD) || Fetch(su, m, CHOP))
    ensures Step(su, m) == Running(m.(stack := rest, pc := m.pc + 1,
              out := if su.code[m.pc] == PAD then m.out + Spaces(n) else Chop(m.out, n)))
  {
    assert m.stack[..|m.stack| - 1] == rest;
    assert Top(m, 0) == n;
  }

  lemma StepConv(su: Setup, m: Machine, rest: seq<int>, word: int, flags: int, width: int, prec: int, fc: int)
    requires m.stack == rest + [word, flags, width, prec, fc] && Fetch(su, m, CONV)
    ensures Step(su, m) ==
      match VmConv(su, m.inp, flags, width, prec, fc, word)
      case Converted(bytes) => Running(m.(stack := rest, pc := m.pc + 1, out := m.out + bytes))
      case Rejected(e) => Thrown(e, m.inp, m.out)
  {
    assert m.stack[..|m.stack| - 5] == rest;
    assert Top(m, 0) == fc && Top(m, 1) == prec && Top(m, 2) == width && Top(m, 3) == flags && Top(m, 4) == word;
  }

  lemma StepPushPC(su: Setup, m: Machine)
    requires Fetch(su, m, PC) && Room(su, m, 1)
    ensures Step(su, m) == Running(Pushed(m, m.pc, 1))
  {
  }

  lemma JumpDistance(su: Setup, m: Machine, d: int)
    requires At(su.code, m.pc, JumpCode(d)) && -65536 < d < 65536 && Room(su, m, 2)
    ensures Reaches(su, m, Running(m.(stack := m.stack + [m.pc, if d < 0 then -d else d], pc := m.pc + 4)))
  {
    hide Step, Loaded, Hi, Lo;
    var b := JumpCode(d);
    var dist := if d < 0 then -d else d;
    assert b[0] == PC && b[1] == I16 && b[2] == Hi(dist) && b[3] == Lo(dist);
    var m1 := Pushed(m, m.pc, 1);
    StepPushPC(su, m);
    assert su.code[m1.pc] == I16 && su.code[m1.pc + 1] == Hi(dist) && su.code[m1.pc + 2] == Lo(dist);
    StepImm(su, m1, dist, 3);
    LoadedSmall(dist);
    assert m1.stack + [dist] == m.stack + [m.pc, dist];
    One(su, m1, Running(Pushed(m1, dist, 3)));
    Then(su, m, m1, Running(Pushed(m1, dist, 3)));
  }

  /** A patched jump: six bytes that go d bytes on when the top of the stack is non-zero. */
  lemma RunJump(su: Setup, m: Machine, rest: seq<int>, c: int, d: int)
    requires At(su.code, m.pc, JumpCode(d)) && -65536 < d < 65536 && Room(su, m, 2)
    requires m.stack == rest + [c]
    requires c != 0 ==> 0 <= m.pc + d < |su.code|
    ensures Reaches(su, m, Running(m.(stack := rest, pc := if c != 0 then m.pc + d else m.pc + 6)))
  {
    hide Step, Hi, Lo;
    var b := JumpCode(d);
    var dist := if d < 0 then -d else d;
    var m2 := m.(stack := m.stack + [m.pc, dist], pc := m.pc + 4);
    var m3 := m.(stack := m.stack + [m.pc + d], pc := m.pc + 5);
    var m4 := m.(stack := rest, pc := if c != 0 then m.pc + d else m.pc + 6);
    JumpDistance(su, m, d);
    assert Fetch(su, m2, if d < 0 then SUB else ADD) by { assert su.code[m2.pc] == b[4]; }
    StepBinary(su, m2, m.stack, m.pc, dist, m.pc + d);
    assert Fetch(su, m3, JMP) by { assert su.code[m3.pc] == b[5]; }
    assert m3.stack == rest + [c, m.pc + d];
    StepJmp(su, m3, rest, c, m.pc + d);
    One(su, m3, Running(m4));
    Then(su, m2, m3, Running(m4));
    Chain(su, m, m2, Running(m4));
  }

  /** The machine state that stands for a state of the direct interpreter. */
  function Stands(stack: seq<int>, pc: int, r: Result): Outcome {
    match r
    case Fine(s) => Running(Machine(stack, pc, s.inp, s.out))
    case Fault(e, s) => Thrown(e, s.inp, s.out)
  }

  function StateOf(m: Machine): State { State(m.inp, m.out) }

  // ------------------------------------------------------ forward derivations

  lemma StepOn(su: Setup, m0: Machine, m: Machine, o: Outcome)
    requires Reaches(su, m0, Running(m)) && Step(su, m) == o
    ensures Reaches(su, m0, o)
  {
    One(su, m, o);
    Chain(su, m0, m, o);
  }

  /** The code of an immediate, followed by c. */
  lemma PushOn(su: Setup, m0: Machine, m: Machine, i: int, c: seq<byte>) returns (m1: Machine)
    requires Reaches(su, m0, Running(m))
    requires At(su.code, m.pc, IntCode(i) + c) && Int32(i) && Room(su, m, 1)
    ensures m1 == Pushed(m, Loaded(i), |IntCode(i)|)
    ensures Reaches(su, m0, Running(m1)) && At(su.code, m1.pc, c)
  {
    m1 := Pushed(m, Loaded(i), |IntCode(i)|);
    AtParts(su.code, m.pc, IntCode(i), c);
    RunInt(su, m, i);
    Chain(su, m0, m, Running(m1));
  }

  /** The opcode under the cursor, and what follows it. */
  lemma Opcode(su: Setup, m: Machine, op: byte, c: seq<byte>)
    requires At(su.code, m.pc, [op] + c) && m.inp <= |su.block|
    ensures Fetch(su, m, op) && At(su.code, m.pc + 1, c)
  {
    AtParts(su.code, m.pc, [op], c);
    assert [op][0] == op;
  }

  // ------------------------------------------------------------- conversions

  lemma IntCodeSize(i: int)
    ensures 1 <= |IntCode(i)| <= 6
  {
  }

  lemma ConvCodeSize(item: Item)
    requires item.Conv?
    ensures 1 <= |ConvCode(item)| < 100
  {
    IntCodeSize(ReadBytes(item));
    IntCodeSize(item.flags);
    IntCodeSize(item.width);
    IntCodeSize(item.prec);
    IntCodeSize(item.fc);
  }

  lemma RunGeneral(su: Setup, m: Machine, item: Item)
    requires item.Conv? && ValidItem(item)
    requires At(su.code, m.pc, GeneralCode(item)) && Room(su, m, 5)
    ensures Reaches(su, m, Stands(m.stack, m.pc + |GeneralCode(item)|, Generic(su, COMPILED, item, StateOf(m))))
  {
    hide Step, Reaches, At, IntCode, VmConv, LoadWord;
    var c4 := IntCode(item.fc) + [CONV];
    var c3 := IntCode(item.prec) + c4;
    var c2 := IntCode(item.width) + c3;
    var c1 := IntCode(item.flags) + c2;
    Stay(su, m);
    var m1 := PushOn(su, m, m, ReadBytes(item), [READ] + c1);
    Opcode(su, m1, READ, c1);
    StepRead(su, m1, m.stack, Loaded(ReadBytes(item)));
    var end := ReadEnd(su, m.inp, Loaded(ReadBytes(item)));
    var word := LoadWord(su.bigEndian, su.block[m.inp..end]);
    var m2 := m1.(stack := m.stack + [word], pc := m1.pc + 1, inp := end);
    StepOn(su, m, m1, Running(m2));
    var m3 := PushOn(su, m, m2, item.flags, c2);
    var m4 := PushOn(su, m, m3, item.width, c3);
    var m5 := PushOn(su, m, m4, item.prec, c4);
    var m6 := PushOn(su, m, m5, item.fc, [CONV]);
    Opcode(su, m6, CONV, []) by { assert [CONV] + [] == [CONV]; }
    var f, w, p, fc := Loaded(item.flags), Loaded(item.width), Loaded(item.prec), Loaded(item.fc);
    assert m6.stack == m.stack + [word, f, w, p, fc];
    StepConv(su, m6, m.stack, word, f, w, p, fc);
    StepOn(su, m, m6, Step(su, m6));
    assert m6.pc + 1 == m.pc + |GeneralCode(item)|;
  }

  lemma RunConv(su: Setup, m: Machine, item: Item)
    requires item.Conv? && ValidItem(item)
    requires At(su.code, m.pc, ConvCode(item)) && Room(su, m, 5)
    ensures Reaches(su, m, Stands(m.stack, m.pc + |ConvCode(item)|, Convert(su, COMPILED, item, StateOf(m))))
  {
    hide Step, Reaches, At, KindOf, VmConv, LoadWord, Generic, GeneralCode;
    if KindOf(item).General? {
      RunGeneral(su, m, item);
    } else {
      StepShortcut(su, m, item);
      One(su, m, Step(su, m));
    }
  }

  lemma StepShortcut(su: Setup, m: Machine, item: Item)
    requires item.Conv? && !KindOf(item).General? && m.inp <= |su.block|
    requires At(su.code, m.pc, ConvCode(item))
    ensures Step(su, m) == Stands(m.stack, m.pc + |ConvCode(item)|, Convert(su, COMPILED, item, StateOf(m)))
  {
    hide KindOf;
    assert su.code[m.pc + 0] == ConvCode(item)[0];
  }

  lemma RunTrue(su: Setup, m: Machine)
    requires Fetch(su, m, TRUE) && Room(su, m, 1)
    ensures Step(su, m) == Running(Pushed(m, 1, 1))
  {
  }

  lemma RunCount(su: Setup, m: Machine)
    requires Fetch(su, m, COUNT) && Room(su, m, 1)
    ensures Step(su, m) == Running(Pushed(m, |su.block| - m.inp, 1))
  {
  }

  /** The padding part of the guard, and its jump over the conversion. */
  lemma RunPad(su: Setup, m: Machine, width: int, d: nat)
    requires At(su.code, m.pc, IntCode(width) + [PAD, TRUE] + JumpCode(d)) && Int32(width) && d < 65536 && Room(su, m, 3)
    requires m.pc + |IntCode(width)| + 2 + d < |su.code|
    ensures Reaches(su, m, Running(m.(pc := m.pc + |IntCode(width)| + 2 + d, out := m.out + Spaces(Loaded(width)))))
  {
    hide Step, Reaches;
    var j := JumpCode(d);
    assert IntCode(width) + [PAD, TRUE] + j == IntCode(width) + ([PAD] + ([TRUE] + j));
    Stay(su, m);
    var m3 := PushOn(su, m, m, width, [PAD] + ([TRUE] + j));
    Opcode(su, m3, PAD, [TRUE] + j);
    StepPadChop(su, m3, m.stack, Loaded(width));
    var m4 := m.(pc := m3.pc + 1, out := m.out + Spaces(Loaded(width)));
    StepOn(su, m, m3, Running(m4));
    Opcode(su, m4, TRUE, j);
    var m5 := Pushed(m4, 1, 1);
    RunTrue(su, m4);
    StepOn(su, m, m4, Running(m5));
    RunJump(su, m5, m.stack, 1, d);
    Chain(su, m, m5, Running(m4.(pc := m5.pc + d)));
  }

  /** With input left the guard falls through to the conversion; without, it pads and jumps over it. */
  lemma RunGuardPad(su: Setup, m: Machine, item: Item)
    requires item.Conv? && ValidItem(item) && item.bytes > 0 && item.width > 0
    requires At(su.code, m.pc, GuardCode(item) + ConvCode(item)) && Room(su, m, 5)
    requires m.pc + |GuardCode(item) + ConvCode(item)| < |su.code|
    ensures var g, c := |GuardCode(item)|, |ConvCode(item)|;
            Reaches(su, m, Running(
              if m.inp < |su.block| then m.(pc := m.pc + g)
              else m.(pc := m.pc + g + c, out := m.out + Spaces(Loaded(item.width)))))
  {
    hide Step, Reaches, At, ConvCode, IntCode, JumpCode;
    ConvCodeSize(item);
    IntCodeSize(item.width);
    var core := ConvCode(item);
    var j2 := JumpCode(6 + |core|);
    var pad := IntCode(item.width) + [PAD, TRUE];
    var d := 6 + |pad| + 6;
    AtParts(su.code, m.pc, GuardCode(item), core);
    Opcode(su, m, COUNT, JumpCode(d) + (pad + j2));
    RunCount(su, m);
    var left := |su.block| - m.inp;
    var m1 := Pushed(m, left, 1);
    One(su, m, Running(m1));
    AtParts(su.code, m1.pc, JumpCode(d), pad + j2);
    RunJump(su, m1, m.stack, left, d);
    if left == 0 {
      var m2 := m.(pc := m1.pc + 6);
      Chain(su, m, m1, Running(m2));
      RunPad(su, m2, item.width, 6 + |core|);
      Chain(su, m, m2, Running(m2.(pc := m2.pc + |pad| + 6 + |core|, out := m.out + Spaces(Loaded(item.width)))));
    } else {
      Chain(su, m, m1, Running(m.(pc := m1.pc + d)));
    }
  }

  lemma RunGuardSkip(su: Setup, m: Machine, item: Item)
    requires item.Conv? && ValidItem(item) && item.bytes > 0 && item.width <= 0
    requires At(su.code, m.pc, GuardCode(item) + ConvCode(item)) && Room(su, m, 5)
    requires m.pc + |GuardCode(item) + ConvCode(item)| < |su.code|
    ensures var g, c := |GuardCode(item)|, |ConvCode(item)|;
            Reaches(su, m, Running(m.(pc := if m.inp < |su.block| then m.pc + g else m.pc + g + c)))
  {
    hide Step, Reaches, At, ConvCode, JumpCode;
    ConvCodeSize(item);
    var core := ConvCode(item);
    AtParts(su.code, m.pc, GuardCode(item), core);
    assert [COUNT, NOT] + JumpCode(6 + |core|) == [COUNT] + ([NOT] + JumpCode(6 + |core|));
    Opcode(su, m, COUNT, [NOT] + JumpCode(6 + |core|));
    var left := |su.block| - m.inp;
    RunCount(su, m);
    var m1 := Pushed(m, left, 1);
    One(su, m, Running(m1));
    Opcode(su, m1, NOT, JumpCode(6 + |core|));
    StepUnary(su, m1, m.stack, left, [Truth(left == 0)]);
    var m2 := m.(stack := m.stack + [Truth(left == 0)], pc := m.pc + 2);
    StepOn(su, m, m1, Running(m2));
    RunJump(su, m2, m.stack, Truth(left == 0), 6 + |core|);
    Chain(su, m, m2, Running(m.(pc := if m.inp < |su.block| then m.pc + 8 else m.pc + 8 + |core|)));
  }

  lemma StepPutc(su: Setup, m: Machine, ch: byte)
    requires At(su.code, m.pc, [PUTC, ch]) && m.inp <= |su.block|
    ensures Step(su, m) == Running(m.(pc := m.pc + 2, out := m.out + [ch]))
  {
    assert su.code[m.pc + 0] == [PUTC, ch][0] && su.code[m.pc + 1] == [PUTC, ch][1];
  }

  lemma RunItem(su: Setup, m: Machine, item: Item)
    requires ValidItem(item) && At(su.code, m.pc, ItemCode(item)) && Room(su, m, 5)
    requires m.pc + |ItemCode(item)| < |su.code|
    ensures Reaches(su, m, Stands(m.stack, m.pc + |ItemCode(item)|, DoItem(su, COMPILED, item, StateOf(m))))
  {
    hide Step, Reaches, At, ConvCode, JumpCode, IntCode, Convert, Loaded;
    match item
    case Lit(ch) =>
      StepPutc(su, m, ch);
      One(su, m, Running(m.(pc := m.pc + 2, out := m.out + [ch])));
    case Conv(_, width, _, _, bytes) =>
      var g, c := |GuardCode(item)|, |ConvCode(item)|;
      AtParts(su.code, m.pc, GuardCode(item), ConvCode(item));
      var r := DoItem(su, COMPILED, item, StateOf(m));
      if bytes <= 0 {
        RunConv(su, m, item);
      } else {
        if width > 0 { RunGuardPad(su, m, item); } else { RunGuardSkip(su, m, item); }
        if m.inp < |su.block| {
          RunConv(su, m.(pc := m.pc + g), item);
          Chain(su, m, m.(pc := m.pc + g), Stands(m.stack, m.pc + g + c, r));
        } else {
          assert m.out + [] == m.out;
        }
      }
  }

  lemma {:induction false} RunItems(su: Setup, m: Machine, items: seq<Item>)
    requires forall k :: 0 <= k < |items| ==> ValidItem(items[k])
    requires At(su.code, m.pc, ItemsCode(items)) && Room(su, m, 5)
    requires m.pc + |ItemsCode(items)| < |su.code|
    ensures Reaches(su, m, Stands(m.stack, m.pc + |ItemsCode(items)|, DoItems(su, COMPILED, items, StateOf(m))))
  {
    hide Step, Reaches, At, ItemCode, DoItem;
    if items == [] {
      Stay(su, m);
    } else {
      var front, last := items[..|items| - 1], items[|items| - 1];
      AtParts(su.code, m.pc, ItemsCode(front), ItemCode(last));
      RunItems(su, m, front);
      match DoItems(su, COMPILED, front, StateOf(m))
      case Fault(_, _) =>
      case Fine(s) =>
        var m1 := Machine(m.stack, m.pc + |ItemsCode(front)|, s.inp, s.out);
        RunItem(su, m1, last);
        Chain(su, m, m1, Stands(m.stack, m.pc + |ItemsCode(items)|, DoItem(su, COMPILED, last, s)));
    }
  }

  // ------------------------------------------------------------------- loops

  /** Whether the loop of emit_unit leaves at the top of the c-th repetition. */
  predicate Leaves(su: Setup, u: Unit, c: int, inp: nat) {
    c == Loaded(u.loop) || (u.nopad && |su.block| - inp < Consumes(u))
  }

  /** Loop count minus counter, negated. */
  lemma RunCounter(su: Setup, m: Machine, rest: seq<int>, c: int, loop: int, after: seq<byte>)
    requires At(su.code, m.pc, [DUP] + (IntCode(loop) + ([SWAP, SUB, NOT] + after))) && Int32(loop)
    requires m.stack == rest + [c] && Room(su, m, 3)
    ensures var m' := m.(stack := rest + [c, Truth(c == Loaded(loop))], pc := m.pc + 4 + |IntCode(loop)|);
            Reaches(su, m, Running(m')) && At(su.code, m'.pc, after)
  {
    hide Step, Reaches, At, IntCode, Loaded;
    var l := Loaded(loop);
    Opcode(su, m, DUP, IntCode(loop) + ([SWAP, SUB, NOT] + after));
    StepUnary(su, m, rest, c, [c, c]);
    var m1 := m.(stack := rest + [c, c], pc := m.pc + 1);
    One(su, m, Running(m1));
    assert [SWAP, SUB, NOT] + after == [SWAP] + ([SUB] + ([NOT] + after));
    var m2 := PushOn(su, m, m1, loop, [SWAP] + ([SUB] + ([NOT] + after)));
    Opcode(su, m2, SWAP, [SUB] + ([NOT] + after));
    assert m2.stack == (rest + [c]) + [c, l];
    StepSwap(su, m2, rest + [c], c, l);
    var m3 := m2.(stack := (rest + [c]) + [l, c], pc := m2.pc + 1);
    StepOn(su, m, m2, Running(m3));
    Opcode(su, m3, SUB, [NOT] + after);
    StepBinary(su, m3, rest + [c], l, c, l - c);
    var m4 := m2.(stack := (rest + [c]) + [l - c], pc := m2.pc + 2);
    StepOn(su, m, m3, Running(m4));
    Opcode(su, m4, NOT, after);
    StepUnary(su, m4, rest + [c], l - c, [Truth(l - c == 0)]);
    var m5 := m2.(stack := (rest + [c]) + [Truth(l - c == 0)], pc := m2.pc + 3);
    StepOn(su, m, m4, Running(m5));
    assert m5.stack == rest + [c, Truth(c == l)];
  }

  /** The early exit of a unit marked ?. */
  lemma RunShort(su: Setup, m: Machine, rest: seq<int>, b: bool, consumes: byte)
    requires At(su.code, m.pc, [COUNT, I8, consumes, LT, OR])
    requires m.stack == rest + [Truth(b)] && Room(su, m, 2)
    ensures Reaches(su, m, Running(m.(stack := rest + [Truth(b || |su.block| - m.inp < consumes)], pc := m.pc + 5)))
  {
    hide Step, Reaches;
    var left := |su.block| - m.inp;
    var code := [COUNT, I8, consumes, LT, OR];
    assert code[0] == COUNT && code[1] == I8 && code[2] == consumes && code[3] == LT && code[4] == OR;
    RunCount(su, m);
    var m1 := Pushed(m, left, 1);
    One(su, m, Running(m1));
    StepImm(su, m1, consumes, 2);
    LoadedSmall(consumes);
    var m2 := m.(stack := (rest + [Truth(b)]) + [left, consumes], pc := m.pc + 3);
    assert m2 == Pushed(m1, consumes, 2);
    StepOn(su, m, m1, Running(m2));
    StepBinary(su, m2, rest + [Truth(b)], left, consumes, Truth(left < consumes));
    var m3 := m.(stack := rest + [Truth(b), Truth(left < consumes)], pc := m.pc + 4);
    assert (rest + [Truth(b)]) + [Truth(left < consumes)] == m3.stack;
    StepOn(su, m, m2, Running(m3));
    StepBinary(su, m3, rest, Truth(b), Truth(left < consumes), Truth(b || left < consumes));
    StepOn(su, m, m3, Running(m.(stack := rest + [Truth(b || left < consumes)], pc := m.pc + 5)));
  }

  lemma RunTest(su: Setup, m: Machine, rest: seq<int>, c: int, u: Unit)
    requires ValidUnit(u) && At(su.code, m.pc, TestCode(u))
    requires m.stack == rest + [c] && Room(su, m, 3)
    ensures Reaches(su, m, Running(
              m.(stack := rest + [c, Truth(Leaves(su, u, c, m.inp))], pc := m.pc + |TestCode(u)|)))
  {
    hide Step, Reaches, At, IntCode, Loaded, Consumes;
    var short := if u.nopad then [COUNT, I8, ToByte(Consumes(u)), LT, OR] else [];
    RunCounter(su, m, rest, c, u.loop, short);
    var b := c == Loaded(u.loop);
    var m1 := m.(stack := rest + [c, Truth(b)], pc := m.pc + 4 + |IntCode(u.loop)|);
    if u.nopad {
      assert ToByte(Consumes(u)) == Consumes(u) by { ConsumesIsNat(u); }
      assert m1.stack == (rest + [c]) + [Truth(b)];
      RunShort(su, m1, rest + [c], b, Consumes(u));
      var m2 := m1.(stack := rest + [c, Truth(Leaves(su, u, c, m.inp))], pc := m1.pc + 5);
      assert (rest + [c]) + [Truth(b || |su.block| - m.inp < Consumes(u))] == m2.stack;
      Chain(su, m, m1, Running(m2));
    }
  }

  lemma ConsumesIsNat(u: Unit)
    requires ValidUnit(u)
    ensures 0 <= Consumes(u) && (u.nopad ==> ToByte(Consumes(u)) == Consumes(u))
  {
  }

  /** Bytes no conversion consumes are read and dropped. */
  lemma RunSkip(su: Setup, m: Machine, u: Unit)
    requires ValidUnit(u) && At(su.code, m.pc, SkipCode(u)) && Room(su, m, 1)
    ensures Reaches(su, m, Running(m.(inp := ReadEnd(su, m.inp, Loaded(u.skip)), pc := m.pc + |SkipCode(u)|)))
  {
    hide Step, Reaches, At, IntCode, LoadWord;
    Stay(su, m);
    if u.skip > 0 {
      assert [READ, POP] == [READ] + ([POP] + []);
      var m1 := PushOn(su, m, m, u.skip, [READ] + ([POP] + []));
      Opcode(su, m1, READ, [POP] + []);
      StepRead(su, m1, m.stack, Loaded(u.skip));
      var end := ReadEnd(su, m.inp, Loaded(u.skip));
      var word := LoadWord(su.bigEndian, su.block[m.inp..end]);
      var m2 := m.(stack := m.stack + [word], pc := m1.pc + 1, inp := end);
      StepOn(su, m, m1, Running(m2));
      Opcode(su, m2, POP, []);
      StepUnary(su, m2, m.stack, word, []);
      assert m.stack + [] == m.stack;
      StepOn(su, m, m2, Running(m.(pc := m2.pc + 1, inp := end)));
    } else {
      LoadedSmall(0);
    }
  }

  /** One repetition: count it, run the items, skip the rest, push the jump condition. */
  lemma RunBody(su: Setup, m: Machine, rest: seq<int>, c: int, u: Unit)
    requires ValidUnit(u) && At(su.code, m.pc, BodyCode(u)) && m.pc + |BodyCode(u)| < |su.code|
    requires m.stack == rest + [c] && Room(su, m, 5)
    ensures Reaches(su, m, match DoOnce(su, COMPILED, u, StateOf(m))
              case Fine(s) => Running(Machine(rest + [c + 1, 1], m.pc + |BodyCode(u)|, s.inp, s.out))
              case Fault(e, s) => Thrown(e, s.inp, s.out))
  {
    hide Step, Reaches, At, IntCode, ItemsCode, DoItems, SkipCode;
    var items, skip := ItemsCode(u.items), SkipCode(u);
    assert [ONE, ADD] + (items + (skip + [TRUE])) == [ONE] + ([ADD] + (items + (skip + [TRUE])));
    Opcode(su, m, ONE, [ADD] + (items + (skip + [TRUE])));
    StepImm8(su, m, 1);
    var m1 := m.(stack := rest + [c, 1], pc := m.pc + 1);
    assert Pushed(m, 1, 1) == m1;
    One(su, m, Running(m1));
    Opcode(su, m1, ADD, items + (skip + [TRUE]));
    StepBinary(su, m1, rest, c, 1, c + 1);
    var m2 := m.(stack := rest + [c + 1], pc := m.pc + 2);
    StepOn(su, m, m1, Running(m2));
    AtParts(su.code, m2.pc, items, skip + [TRUE]);
    RunItems(su, m2, u.items);
    var r := DoItems(su, COMPILED, u.items, StateOf(m));
    Chain(su, m, m2, Stands(m2.stack, m2.pc + |items|, r));
    if r.Fine? {
      var m3 := Machine(m2.stack, m2.pc + |items|, r.s.inp, r.s.out);
      AtParts(su.code, m3.pc, skip, [TRUE] + []) by { assert skip + [TRUE] == skip + ([TRUE] + []); }
      RunSkip(su, m3, u);
      var m4 := m3.(inp := ReadEnd(su, m3.inp, Loaded(u.skip)), pc := m3.pc + |skip|);
      Chain(su, m, m3, Running(m4));
      Opcode(su, m4, TRUE, []);
      RunTrue(su, m4);
      assert m4.stack + [1] == rest + [c + 1, 1];
      StepOn(su, m, m4, Running(Pushed(m4, 1, 1)));
    }
  }

  /** The whole loop, entered at its top with the counter at c. */
  lemma {:induction false} RunLoop(su: Setup, m: Machine, rest: seq<int>, c: nat, u: Unit)
    requires ValidUnit(u) && At(su.code, m.pc, LoopCode(u))
    requires m.pc + |LoopCode(u)| < |su.code| <= CODE_SIZE
    requires m.stack == rest + [c] && c <= Loaded(u.loop) && Room(su, m, 5)
    ensures match Repeat(su, COMPILED, u, c, StateOf(m))
            case Fine(s) => exists c' :: Reaches(su, m, Running(Machine(rest + [c'], m.pc + |LoopCode(u)|, s.inp, s.out)))
            case Fault(e, s) => Reaches(su, m, Thrown(e, s.inp, s.out))
    decreases Loaded(u.loop) - c
  {
    hide Step, Reaches, At, TestCode, BodyCode, JumpCode, DoOnce, Loaded;
    var test, body := TestCode(u), BodyCode(u);
    var out, back := 6 + |body| + 6, -(|test| + 6 + |body|);
    var pc := m.pc;
    AtParts(su.code, pc, test, JumpCode(out) + (body + JumpCode(back)));
    AtParts(su.code, pc + |test|, JumpCode(out), body + JumpCode(back));
    AtParts(su.code, pc + |test| + 6, body, JumpCode(back));
    RunTest(su, m, rest, c, u);
    var leaves := Leaves(su, u, c, m.inp);
    var m1 := m.(stack := rest + [c, Truth(leaves)], pc := pc + |test|);
    assert m1.stack == (rest + [c]) + [Truth(leaves)];
    AtInside(su.code, pc, LoopCode(u));
    RunJump(su, m1, rest + [c], Truth(leaves), out);
    var m2 := m.(pc := if leaves then m1.pc + out else m1.pc + 6);
    Chain(su, m, m1, Running(m2));
    if leaves {
      assert Reaches(su, m, Running(Machine(rest + [c], pc + |LoopCode(u)|, m.inp, m.out)));
    } else {
      RunBody(su, m2, rest, c, u);
      match DoOnce(su, COMPILED, u, StateOf(m))
      case Fault(e, s) =>
        Chain(su, m, m2, Thrown(e, s.inp, s.out));
      case Fine(s) =>
        var m3 := Machine(rest + [c + 1, 1], m2.pc + |body|, s.inp, s.out);
        Chain(su, m, m2, Running(m3));
        assert m3.stack == (rest + [c + 1]) + [1];
        RunJump(su, m3, rest + [c + 1], 1, back);
        var m4 := Machine(rest + [c + 1], pc, s.inp, s.out);
        Chain(su, m, m3, Running(m4));
        RunLoop(su, m4, rest, c + 1, u);
        match Repeat(su, COMPILED, u, c + 1, s)
        case Fault(e, s1) =>
          Chain(su, m, m4, Thrown(e, s1.inp, s1.out));
        case Fine(s1) =>
          var c' :| Reaches(su, m4, Running(Machine(rest + [c'], pc + |LoopCode(u)|, s1.inp, s1.out)));
          Chain(su, m, m4, Running(Machine(rest + [c'], pc + |LoopCode(u)|, s1.inp, s1.out)));
    }
  }

  lemma AtInside(code: seq<byte>, a: int, b: seq<byte>)
    requires At(code, a, b)
    ensures 0 <= a && a + |b| <= |code|
  {
  }

  lemma RunChop(su: Setup, m: Machine, u: Unit)
    requires ValidUnit(u) && At(su.code, m.pc, ChopCode(u)) && Room(su, m, 1)
    ensures Reaches(su, m, Running(m.(pc := m.pc + |ChopCode(u)|,
              out := if u.loop > 1 then Chop(m.out, Loaded(u.chop)) else m.out)))
  {
    hide Step, Reaches, At, IntCode;
    Stay(su, m);
    if u.loop > 1 && u.chop > 0 {
      var m1 := PushOn(su, m, m, u.chop, [CHOP]);
      Opcode(su, m1, CHOP, []) by { assert [CHOP] + [] == [CHOP]; }
      StepPadChop(su, m1, m.stack, Loaded(u.chop));
      StepOn(su, m, m1, Step(su, m1));
    } else {
      LoadedSmall(0);
      assert m.out[..|m.out|] == m.out;
    }
  }

  /** A unit: push the counter, loop, drop the counter, chop. */
  lemma RunUnit(su: Setup, m: Machine, u: Unit)
    requires ValidUnit(u) && At(su.code, m.pc, UnitCode(u))
    requires m.pc + |UnitCode(u)| < |su.code| <= CODE_SIZE && Room(su, m, 6)
    ensures Reaches(su, m, Stands(m.stack, m.pc + |UnitCode(u)|, DoUnit(su, COMPILED, u, StateOf(m))))
  {
    hide Step, Reaches, At, LoopCode, ChopCode, Loaded, Repeat;
    var loop, chop := LoopCode(u), ChopCode(u);
    Opcode(su, m, ZERO, loop + ([POP] + chop));
    StepImm8(su, m, 0);
    var m1 := Pushed(m, 0, 1);
    One(su, m, Running(m1));
    AtParts(su.code, m1.pc, loop, [POP] + chop);
    LoadedNat(u.loop);
    RunLoop(su, m1, m.stack, 0, u);
    match Repeat(su, COMPILED, u, 0, StateOf(m))
    case Fault(e, s) =>
      Chain(su, m, m1, Thrown(e, s.inp, s.out));
    case Fine(s) =>
      var c :| Reaches(su, m1, Running(Machine(m.stack + [c], m1.pc + |loop|, s.inp, s.out)));
      var m2 := Machine(m.stack + [c], m1.pc + |loop|, s.inp, s.out);
      Chain(su, m, m1, Running(m2));
      Opcode(su, m2, POP, chop);
      StepUnary(su, m2, m.stack, c, []);
      var m3 := m2.(stack := m.stack, pc := m2.pc + 1);
      assert m.stack + [] == m.stack;
      StepOn(su, m, m2, Running(m3));
      RunChop(su, m3, u);
      Chain(su, m, m3, Stands(m.stack, m.pc + |UnitCode(u)|, DoUnit(su, COMPILED, u, StateOf(m))));
  }

  lemma LoadedNat(i: nat)
    ensures 0 <= Loaded(i)
  {
  }

  lemma {:induction false} RunUnits(su: Setup, m: Machine, line: Line)
    requires forall j :: 0 <= j < |line| ==> ValidUnit(line[j])
    requires At(su.code, m.pc, UnitsCode(line))
    requires m.pc + |UnitsCode(line)| < |su.code| <= CODE_SIZE && Room(su, m, 6)
    ensures Reaches(su, m, Stands(m.stack, m.pc + |UnitsCode(line)|, DoUnits(su, COMPILED, line, StateOf(m))))
  {
    hide Step, Reaches, At, UnitCode, DoUnit;
    if line == [] {
      Stay(su, m);
    } else {
      var front, last := line[..|line| - 1], line[|line| - 1];
      AtParts(su.code, m.pc, UnitsCode(front), UnitCode(last));
      RunUnits(su, m, front);
      match DoUnits(su, COMPILED, front, StateOf(m))
      case Fault(_, _) =>
      case Fine(s) =>
        var m1 := Machine(m.stack, m.pc + |UnitsCode(front)|, s.inp, s.out);
        RunUnit(su, m1, last);
        Chain(su, m, m1, Stands(m.stack, m.pc + |UnitsCode(line)|, DoUnit(su, COMPILED, last, s)));
    }
  }

  lemma {:induction false} RunLines(su: Setup, m: Machine, prog: Program)
    requires ValidProgram(prog) && At(su.code, m.pc, LinesCode(prog))
    requires m.pc + |LinesCode(prog)| < |su.code| <= CODE_SIZE && Room(su, m, 6)
    ensures Reaches(su, m, Stands(m.stack, m.pc + |LinesCode(prog)|, DoLines(su, COMPILED, prog, StateOf(m))))
  {
    hide Step, Reaches, At, UnitsCode, DoUnits;
    if prog == [] {
      Stay(su, m);
    } else {
      var front, last := prog[..|prog| - 1], prog[|prog| - 1];
      AtParts(su.code, m.pc, LinesCode(front), [RESET] + UnitsCode(last));
      RunLines(su, m, front);
      match DoLines(su, COMPILED, front, StateOf(m))
      case Fault(_, _) =>
      case Fine(s) =>
        var m1 := Machine(m.stack, m.pc + |LinesCode(front)|, s.inp, s.out);
        Opcode(su, m1, RESET, UnitsCode(last));
        StepReset(su, m1);
        var m2 := m1.(inp := 0, pc := m1.pc + 1);
        StepOn(su, m, m1, Running(m2));
        forall j | 0 <= j < |last| ensures ValidUnit(last[j]) {
          assert ValidUnit(prog[|prog| - 1][j]);
        }
        RunUnits(su, m2, last);
        Chain(su, m, m2, Stands(m.stack, m.pc + |LinesCode(prog)|, DoUnits(su, COMPILED, last, State(0, s.out))));
    }
  }

  lemma StepReset(su: Setup, m: Machine)
    requires Fetch(su, m, RESET)
    ensures Step(su, m) == Running(m.(inp := 0, pc := m.pc + 1))
  {
  }

  // ------------------------------------------------------------ main theorem

  /** How the run of a block has to end, given what the direct interpreter makes of it. */
  function Verdict(pc: int, r: Result): Outcome {
    match r
    case Fine(s) => Halted(Machine([], pc, s.inp, s.out))
    case Fault(e, s) => Thrown(e, s.inp, s.out)
  }

  function Start(out: seq<byte>): Machine { Machine([], 0, 0, out) }

  /** Running a compiled format on a block, with an empty stack of six slots or more, stops:
      at OP_HALT, the stack empty again, with the output of the direct interpreter, or by
      throwing its error. It never crashes. */
  lemma CompilerCorrect(su: Setup, prog: Program, out: seq<byte>)
    requires ValidProgram(prog) && |LinesCode(prog)| < CODE_SIZE && su.code == Image(prog)
    requires su.slots >= 6
    ensures Reaches(su, Start(out), Verdict(|LinesCode(prog)|, DoLines(su, COMPILED, prog, State(0, out))))
  {
    hide Step, Reaches, LinesCode, DoLines;
    var m := Start(out);
    var lines := LinesCode(prog);
    assert |su.code| == CODE_SIZE;
    RunLines(su, m, prog);
    match DoLines(su, COMPILED, prog, State(0, out))
    case Fault(_, _) =>
    case Fine(s) =>
      var m1 := Machine([], |lines|, s.inp, s.out);
      assert su.code[|lines|] == HALT;
      StepHalt(su, m1);
      StepOn(su, m, m1, Halted(m1));
  }

  /** That is the only end a run can have: after any number of steps the machine is still running,
      or it has halted or thrown just as the direct interpreter says. */
  lemma OnlyEnd(su: Setup, prog: Program, out: seq<byte>, n: nat)
    requires ValidProgram(prog) && |LinesCode(prog)| < CODE_SIZE && su.code == Image(prog) && su.slots >= 6
    ensures var o := Run(su, Start(out), n);
      o.Running? || o == Verdict(|LinesCode(prog)|, DoLines(su, COMPILED, prog, State(0, out)))
  {
    hide Run, LinesCode, DoLines, Image, ValidProgram;
    CompilerCorrect(su, prog, out);
    var end := Verdict(|LinesCode(prog)|, DoLines(su, COMPILED, prog, State(0, out)));
    var k: nat :| Run(su, Start(out), k) == end;
    if !Run(su, Start(out), n).Running? { OneEnd(su, Start(out), n, k); }
  }

  lemma StepHalt(su: Setup, m: Machine)
    requires Fetch(su, m, HALT)
    ensures Step(su, m) == Halted(m)
  {
  }
}
