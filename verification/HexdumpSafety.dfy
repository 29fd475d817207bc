/** What a run of a compiled format can never do, and that it ends. */
module HexdumpSafety {
  import opened Arithmetic

  import opened HexdumpMachine
  import opened HexdumpFormat
  import opened HexdumpReference
  import opened HexdumpCorrect

  // --------------------------------------------------- which errors there are

  /** The errors of a conversion: one that is not supported, output too long, snprintf failing */
  predicate OfConversion(e: Error) { e == NOTSUPP || e == NOMEM || e == SYSTEM }

  predicate Mild(r: Result) { r.Fault? ==> OfConversion(r.error) }

  lemma ConvErrors(su: Setup, inp: nat, flags: int, width: int, prec: int, fc: int, word: int)
    requires inp <= |su.block|
    ensures VmConv(su, inp, flags, width, prec, fc, word).Rejected?
      ==> OfConversion(VmConv(su, inp, flags, width, prec, fc, word).error)
  {
  }

  lemma ItemErrors(su: Setup, mode: Mode, item: Item, s: State)
    requires Inside(su, s)
    ensures Mild(DoItem(su, mode, item, s))
  {
    hide VmConv, KindOf, LoadWord;
    if item.Conv? {
      var end := ReadEnd(su, s.inp, Imm(mode, ReadBytes(item)));
      var word := LoadWord(su.bigEndian, su.block[s.inp..end]);
      ConvErrors(su, end, Imm(mode, item.flags), Imm(mode, item.width), Imm(mode, item.prec), Imm(mode, item.fc), word);
    }
  }

  lemma {:induction false} ItemsErrors(su: Setup, mode: Mode, items: seq<Item>, s: State)
    requires Inside(su, s)
    ensures Mild(DoItems(su, mode, items, s))
    decreases items
  {
    hide DoItem;
    if items != [] {
      var front := items[..|items| - 1];
      ItemsErrors(su, mode, front, s);
      var r := DoItems(su, mode, front, s);
      if r.Fine? { ItemErrors(su, mode, items[|items| - 1], r.s); }
    }
  }

  lemma {:induction false} RepeatErrors(su: Setup, mode: Mode, u: Unit, c: nat, s: State)
    requires Inside(su, s)
    ensures Mild(Repeat(su, mode, u, c, s))
    decreases Imm(mode, u.loop) - c
  {
    hide DoItems, Imm, Consumes;
    if !(c >= Imm(mode, u.loop) || (u.nopad && |su.block| - s.inp < Consumes(u))) {
      ItemsErrors(su, mode, u.items, s);
      var r := DoOnce(su, mode, u, s);
      if r.Fine? { RepeatErrors(su, mode, u, c + 1, r.s); }
    }
  }

  lemma {:induction false} UnitsErrors(su: Setup, mode: Mode, line: Line, s: State)
    requires Inside(su, s)
    ensures Mild(DoUnits(su, mode, line, s))
    decreases line
  {
    hide Repeat;
    if line != [] {
      var front := line[..|line| - 1];
      UnitsErrors(su, mode, front, s);
      var r := DoUnits(su, mode, front, s);
      if r.Fine? { RepeatErrors(su, mode, line[|line| - 1], 0, r.s); }
    }
  }

  /** The direct interpreter fails only by a conversion. */
  lemma {:induction false} LinesErrors(su: Setup, mode: Mode, prog: Program, s: State)
    requires Inside(su, s)
    ensures Mild(DoLines(su, mode, prog, s))
    decreases prog
  {
    hide DoUnits;
    if prog != [] {
      var front := prog[..|prog| - 1];
      LinesErrors(su, mode, front, s);
      var r := DoLines(su, mode, front, s);
      if r.Fine? { UnitsErrors(su, mode, prog[|prog| - 1], State(0, r.s.out)); }
    }
  }

  // ------------------------------------------------------------------ all steps

  /** Before its end a run is running; from there on it stays as it ended. */
  lemma {:induction false} RunPrefix(su: Setup, m: Machine, n: nat, k: nat)
    requires !Run(su, m, n).Running?
    ensures k >= n ==> Run(su, m, k) == Run(su, m, n)
    ensures Run(su, m, k).Running? || Run(su, m, k) == Run(su, m, n)
    decreases k
  {
    hide Step;
    if n > 0 && k > 0 && Step(su, m).Running? {
      RunPrefix(su, Step(su, m).m, n - 1, k - 1);
    }
  }

  /** The state after one more step */
  lemma {:induction false} RunNext(su: Setup, m: Machine, k: nat)
    requires Run(su, m, k).Running?
    ensures Run(su, m, k + 1) == Step(su, Run(su, m, k).m)
    decreases k
  {
    hide Step;
    if k > 0 {
      RunNext(su, Step(su, m).m, k - 1);
    } else {
      assert Run(su, m, 0 + 1) == Step(su, m) by { OneStep(su, m); }
    }
  }

  lemma OneStep(su: Setup, m: Machine)
    ensures Run(su, m, 1) == Step(su, m)
  {
    hide Step;
    if Step(su, m).Running? {
      assert Run(su, Step(su, m).m, 0) == Step(su, m);
    }
  }

  /** A step that does not crash has an opcode to run; a placeholder throws HXD_EOOPS. */
  lemma StepFetches(su: Setup, m: Machine)
    requires !Step(su, m).Crashed?
    ensures Fetches(su, m)
    ensures su.code[m.pc] == TRAP ==> Step(su, m) == Thrown(OOPS, m.inp, m.out)
  {
    hide StepPush, StepStack, StepIO;
  }

  /** More slots change nothing as long as fewer are enough. */
  lemma StepSlots(su: Setup, m: Machine, slots: nat)
    requires slots >= su.slots && |m.stack| <= su.slots && !Step(su, m).Crashed?
    ensures Step(su.(slots := slots), m) == Step(su, m)
    ensures Step(su, m).Running? ==> |Step(su, m).m.stack| <= su.slots
  {
    PushSlots(su, m, slots);
    StackSlots(su, m, slots);
    IOSlots(su, m, slots);
    hide StepPush, StepStack, StepIO;
  }

  lemma PushSlots(su: Setup, m: Machine, slots: nat)
    requires slots >= su.slots && |m.stack| <= su.slots && Fetches(su, m)
    ensures !StepPush(su, m).Crashed? ==> StepPush(su.(slots := slots), m) == StepPush(su, m)
    ensures StepPush(su, m).Running? ==> |StepPush(su, m).m.stack| <= su.slots
  {
  }

  lemma StackSlots(su: Setup, m: Machine, slots: nat)
    requires slots >= su.slots && |m.stack| <= su.slots && Fetches(su, m)
    ensures !StepStack(su, m).Crashed? ==> StepStack(su.(slots := slots), m) == StepStack(su, m)
    ensures StepStack(su, m).Running? ==> |StepStack(su, m).m.stack| <= su.slots
  {
  }

  lemma IOSlots(su: Setup, m: Machine, slots: nat)
    requires slots >= su.slots && |m.stack| <= su.slots && Fetches(su, m)
    ensures !StepIO(su, m).Crashed? ==> StepIO(su.(slots := slots), m) == StepIO(su, m)
    ensures StepIO(su, m).Running? ==> |StepIO(su, m).m.stack| <= su.slots
  {
    hide VmConv, LoadWord, Addr7, Addr8, HexByte, Spaces;
    if |m.stack| >= 5 {
      ConvSlots(su, m.inp, Top(m, 3), Top(m, 2), Top(m, 1), Top(m, 0), Top(m, 4), slots);
    }
  }

  lemma ConvSlots(su: Setup, inp: nat, flags: int, width: int, prec: int, fc: int, word: int, slots: nat)
    requires inp <= |su.block|
    ensures VmConv(su.(slots := slots), inp, flags, width, prec, fc, word) == VmConv(su, inp, flags, width, prec, fc, word)
  {
    hide ToOctal, ToShort;
  }

  /** A run that does not crash uses no more slots than it has, and goes the same way with more. */
  lemma {:induction false} RunSlots(su: Setup, m: Machine, slots: nat, k: nat)
    requires slots >= su.slots && |m.stack| <= su.slots && !Run(su, m, k).Crashed?
    ensures Run(su.(slots := slots), m, k) == Run(su, m, k)
    ensures Run(su, m, k).Running? ==> |Run(su, m, k).m.stack| <= su.slots
    decreases k
  {
    hide Step;
    if k > 0 {
      assert !Step(su, m).Crashed?;
      StepSlots(su, m, slots);
      if Step(su, m).Running? {
        RunSlots(su, Step(su, m).m, slots, k - 1);
      }
    }
  }

  // --------------------------------------------------------------- main results

  /** What is true at every moment of the run of a compiled format */
  predicate Safe(su: Setup, o: Outcome) {
    match o
    case Running(m) => Fetches(su, m) && su.code[m.pc] != TRAP && |m.stack| <= 6
    case Halted(m) => m.stack == []
    case Thrown(e, inp, out) => OfConversion(e)
    case Crashed => false
  }

  /** Every run of a compiled format, on every block, is safe at every step: the next opcode is
      inside the code and no placeholder, at most six of the eight slots are in use, nothing is
      thrown but the error of a conversion, and it halts with an empty stack. */
  lemma SafeRun(su: Setup, prog: Program, out: seq<byte>, k: nat)
    requires ValidProgram(prog) && |LinesCode(prog)| < CODE_SIZE && su.code == Image(prog) && su.slots >= 6
    ensures Safe(su, Run(su, Start(out), k))
  {
    hide Run, DoLines, LinesCode, Step;
    var six := su.(slots := 6);
    var n := RunEnds(six, prog, out);
    RunPrefix(six, Start(out), n, k);
    RunPrefix(six, Start(out), n, k + 1);
    RunSlots(six, Start(out), su.slots, k);
    if Run(six, Start(out), k).Running? {
      RunNext(six, Start(out), k);
      StepFetches(six, Run(six, Start(out), k).m);
    }
  }

  /** The run comes to an end, and not to a crash or a placeholder. */
  lemma RunEnds(su: Setup, prog: Program, out: seq<byte>) returns (n: nat)
    requires ValidProgram(prog) && |LinesCode(prog)| < CODE_SIZE && su.code == Image(prog) && su.slots >= 6
    ensures var o := Run(su, Start(out), n); (o.Halted? && o.m.stack == []) || (o.Thrown? && OfConversion(o.error))
  {
    hide Run, DoLines, LinesCode, Step;
    CompilerCorrect(su, prog, out);
    LinesErrors(su, COMPILED, prog, State(0, out));
    var o := Verdict(|LinesCode(prog)|, DoLines(su, COMPILED, prog, State(0, out)));
    n :| Run(su, Start(out), n) == o;
  }

  /** OP_I32 keeps the low 16 bits: an immediate is loaded as it is exactly when it needs no more. */
  lemma LoadedExactly(i: int)
    requires Int32(i)
    ensures Loaded(i) == i <==> -65536 < i < 65536
  {
  }
}
