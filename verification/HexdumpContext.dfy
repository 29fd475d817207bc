/** The hexdump context: the compiler that emits and patches bytecode in place, the
    machine that runs it, and the buffers between hxd_write and hxd_read. */
module HexdumpContext {
  import opened Arithmetic

  import opened HexdumpMachine
  import opened HexdumpFormat
  import opened HexdumpParser

  /** vm_throw, or none */
  datatype Status = Ok | Throw(error: Error) {
    predicate IsFailure() { Throw? }
    function PropagateFailure(): Status
      requires Throw?
    {
      this
    }
  }

  const CODE_LIMIT := CODE_SIZE - 1

  /** Where emitting stands on the way to target, rest being what is still to come:
      on the way, or out of room because target is too long. */
  ghost predicate Toward(r: Status, emitted: seq<byte>, rest: seq<byte>, target: seq<byte>) {
    if r.Ok? then emitted + rest == target else r == Throw(NOMEM) && |target| > CODE_LIMIT
  }

  /** b was added to the code, or there is no room for it. */
  ghost predicate Added(was: seq<byte>, now: seq<byte>, r: Status, b: seq<byte>) {
    if r.Ok? then now == was + b else r == Throw(NOMEM) && |was| + |b| > CODE_LIMIT
  }

  lemma Assoc(a: seq<byte>, b: seq<byte>, c: seq<byte>)
    ensures a + (b + c) == (a + b) + c
  {
  }

  lemma JumpBytes(from: nat, to: nat, d: nat)
    requires d == if to < from then from - to else to - from
    ensures JumpCode(to - from) == [PC, I16, d / 256 % 256, d % 256, if to < from then SUB else ADD, JMP]
  {
  }

  class Code {
    const code: array<byte>
    var pc: nat

    constructor ()
      ensures Emitting() && pc == 0 && fresh(code)
    {
      code := new byte[CODE_SIZE](_ => 0);
      pc := 0;
    }

    ghost predicate Emitting()
      reads this
    {
      code.Length == CODE_SIZE && pc <= CODE_LIMIT
    }

    ghost function Emitted(): (r: seq<byte>)
      requires Emitting()
      reads this, code
      ensures |r| == pc
    {
      code[..pc]
    }

    /** One more byte of code, where there is room */
    method Put(b: byte)
      requires Emitting() && pc < CODE_LIMIT
      modifies this`pc, code
      ensures Emitting() && Emitted() == old(Emitted()) + [b]
      ensures forall k :: pc <= k < CODE_SIZE ==> code[k] == old(code[k])
    {
      code[pc] := b;
      pc := pc + 1;
      assert code[..pc] == old(code[..pc]) + [b];
    }

    method EmitOp(op: byte, ghost rest: seq<byte>, ghost target: seq<byte>) returns (r: Status)
      requires Emitting() && Emitted() + ([op] + rest) == target
      modifies this`pc, code
      ensures Emitting() && Toward(r, Emitted(), rest, target)
    {
      if pc >= CODE_SIZE - 1 {
        return Throw(NOMEM);
      }
      ghost var was := Emitted();
      Put(op);
      assert (was + [op]) + rest == was + ([op] + rest);
      return Ok;
    }

    method EmitNat(i: nat, ghost rest: seq<byte>, ghost target: seq<byte>) returns (r: Status)
      requires Emitting() && Int32(i) && Emitted() + (NatCode(i) + rest) == target
      modifies this`pc, code
      ensures Emitting() && Toward(r, Emitted(), rest, target)
    {
      if i > 65535 {
        ghost var r4 := [Lo(i)] + rest;
        ghost var r3 := [Hi(i)] + r4;
        ghost var r2 := [(i / 0x1_0000 % 256) as byte] + r3;
        ghost var r1 := [(i / 0x100_0000 % 256) as byte] + r2;
        assert NatCode(i) + rest == [I32] + r1;
        :- EmitOp(I32, r1, target);
        :- EmitOp(i / 0x100_0000 % 256, r2, target);
        :- EmitOp(i / 0x1_0000 % 256, r3, target);
        :- EmitOp(i / 256 % 256, r4, target);
        r := EmitOp(i % 256, rest, target);
      } else if i > 255 {
        ghost var r2 := [Lo(i)] + rest;
        ghost var r1 := [Hi(i)] + r2;
        assert NatCode(i) + rest == [I16] + r1;
        :- EmitOp(I16, r1, target);
        :- EmitOp(i / 256 % 256, r2, target);
        r := EmitOp(i % 256, rest, target);
      } else if i == 0 {
        r := EmitOp(ZERO, rest, target);
      } else if i == 1 {
        r := EmitOp(ONE, rest, target);
      } else if i == 2 {
        r := EmitOp(TWO, rest, target);
      } else {
        assert NatCode(i) + rest == [I8] + ([i as byte] + rest);
        :- EmitOp(I8, [i as byte] + rest, target);
        r := EmitOp(i, rest, target);
      }
    }

    method EmitInt(i: int, ghost rest: seq<byte>, ghost target: seq<byte>) returns (r: Status)
      requires Emitting() && Int32(i) && Emitted() + (IntCode(i) + rest) == target
      modifies this`pc, code
      ensures Emitting() && Toward(r, Emitted(), rest, target)
    {
      hide NatCode;
      if i < 0 {
        assert (NatCode(-i) + [NEG]) + rest == NatCode(-i) + ([NEG] + rest);
        :- EmitNat(-i, [NEG] + rest, target);
        r := EmitOp(NEG, rest, target);
      } else {
        r := EmitNat(i, rest, target);
      }
    }

    method EmitPutc(ch: byte, ghost rest: seq<byte>, ghost target: seq<byte>) returns (r: Status)
      requires Emitting() && Emitted() + (ItemCode(Lit(ch)) + rest) == target
      modifies this`pc, code
      ensures Emitting() && Toward(r, Emitted(), rest, target)
    {
      assert [PUTC, ch] + rest == [PUTC] + ([ch] + rest);
      :- EmitOp(PUTC, [ch] + rest, target);
      r := EmitOp(ch, rest, target);
    }

    /** emit_jmp: six bytes to be patched, at from */
    method EmitJmp(ghost rest: seq<byte>, ghost target: seq<byte>) returns (r: Status, from: nat)
      requires Emitting() && Emitted() + (HOLE + rest) == target
      modifies this`pc, code
      ensures Emitting() && Toward(r, Emitted(), rest, target)
      ensures from == old(pc)
    {
      from := pc;
      ghost var r1 := [TRAP] + rest;
      ghost var r2 := [TRAP] + r1;
      ghost var r3 := [TRAP] + r2;
      ghost var r4 := [TRAP] + r3;
      ghost var r5 := [TRAP] + r4;
      assert HOLE + rest == [TRAP] + r5;
      r := EmitOp(TRAP, r5, target);
      if r.Throw? { return; }
      r := EmitOp(TRAP, r4, target);
      if r.Throw? { return; }
      r := EmitOp(TRAP, r3, target);
      if r.Throw? { return; }
      r := EmitOp(TRAP, r2, target);
      if r.Throw? { return; }
      r := EmitOp(TRAP, r1, target);
      if r.Throw? { return; }
      r := EmitOp(TRAP, rest, target);
    }

    /** The first four bytes of a jump: the program counter and the distance. */
    method PatchDistance(d: nat)
      requires Emitting() && pc + 4 <= CODE_LIMIT
      modifies this`pc, code
      ensures Emitting() && Emitted() == old(Emitted()) + [PC, I16, d / 256 % 256, d % 256]
      ensures forall k :: pc <= k < CODE_SIZE ==> code[k] == old(code[k])
    {
      Put(PC);
      Put(I16);
      Put(d / 256 % 256);
      Put(d % 256);
    }

    /** The six bytes of emit_link from pc on. The placeholder is there, so emit_op has room. */
    method PatchJump(from: nat, to: nat) returns (r: Status)
      requires Emitting() && pc == from && from + 6 <= CODE_LIMIT && to <= CODE_LIMIT
      modifies this`pc, code
      ensures Emitting() && r == Ok && pc == from + 6
      ensures Emitted() == old(Emitted()) + JumpCode(to - from)
      ensures forall k :: pc <= k < CODE_SIZE ==> code[k] == old(code[k])
    {
      hide JumpCode, Hi, Lo;
      var d := if to < from then from - to else to - from;
      if d > 65535 {
        return Throw(RANGE);
      }
      PatchDistance(d);
      Put(if to < from then SUB else ADD);
      Put(JMP);
      JumpBytes(from, to, d);
      assert Emitted() == old(Emitted()) + JumpCode(to - from);
      return Ok;
    }

    /** emit_link: patch the hole behind front to jump to to */
    method EmitLink(from: nat, to: nat, ghost front: seq<byte>, ghost back: seq<byte>) returns (r: Status)
      requires Emitting() && to <= pc && from == |front| && Emitted() == front + (HOLE + back)
      modifies this`pc, code
      ensures Emitting() && r == Ok && pc == old(pc)
      ensures Emitted() == front + (JumpCode(to - from) + back)
    {
      hide JumpCode;
      var end := pc;
      ghost var was := Emitted();
      pc := from;
      assert Emitted() == was[..from] == front;
      r := PatchJump(from, to);
      assert was[from + 6..] == back;
      assert code[from + 6..end] == was[from + 6..];
      pc := end;
      assert code[..end] == code[..from + 6] + code[from + 6..end];
      assert (front + JumpCode(to - from)) + back == front + (JumpCode(to - from) + back);
    }

    method EmitGeneral(item: Item, ghost rest: seq<byte>, ghost target: seq<byte>) returns (r: Status)
      requires Emitting() && item.Conv? && ValidItem(item) && Emitted() + (GeneralCode(item) + rest) == target
      modifies this`pc, code
      ensures Emitting() && Toward(r, Emitted(), rest, target)
    {
      hide IntCode;
      ghost var r6 := [CONV] + rest;
      ghost var r5 := IntCode(item.fc) + r6;
      ghost var r4 := IntCode(item.prec) + r5;
      ghost var r3 := IntCode(item.width) + r4;
      ghost var r2 := IntCode(item.flags) + r3;
      ghost var r1 := [READ] + r2;
      GeneralWith(item, rest);
      :- EmitInt(if item.fc == FC1('s') then 0 else item.bytes, r1, target);
      :- EmitOp(READ, r2, target);
      :- EmitInt(item.flags, r3, target);
      :- EmitInt(item.width, r4, target);
      :- EmitInt(item.prec, r5, target);
      :- EmitInt(item.fc, r6, target);
      r := EmitOp(CONV, rest, target);
    }

    /** The opcodes of a conversion */
    method EmitConversion(item: Item, ghost rest: seq<byte>, ghost target: seq<byte>) returns (r: Status)
      requires Emitting() && item.Conv? && ValidItem(item) && Emitted() + (ConvCode(item) + rest) == target
      modifies this`pc, code
      ensures Emitting() && Toward(r, Emitted(), rest, target)
    {
      hide GeneralCode, Toward;
      var flags, width, prec, fc := item.flags, item.width, item.prec, item.fc;
      if fc == FC1('x') && IsZeroFixed(flags, width, prec, 2) {
        r := EmitOp(XBYTE2, rest, target);
      } else if fc == FC2('p') && width <= 1 && prec <= 1 {
        r := EmitOp(PBYTE, rest, target);
      } else if fc == FC2('x') && IsZeroFixed(flags, width, prec, 7) {
        r := EmitOp(XADDR7, rest, target);
      } else if fc == FC2('x') && IsZeroFixed(flags, width, prec, 8) {
        r := EmitOp(XADDR8, rest, target);
      } else {
        r := EmitGeneral(item, rest, target);
      }
    }

    /** The guard of a conversion. Its last jump is still a hole. */
    method EmitGuard(item: Item) returns (r: Status)
      requires Emitting() && item.Conv? && ValidItem(item) && item.bytes > 0
      modifies this`pc, code
      ensures Emitting() && Added(old(Emitted()), Emitted(), r, GuardFront(item) + HOLE)
    {
      hide IntCode, JumpCode;
      ghost var was := Emitted();
      var j1, j2;
      if item.width > 0 {
        ghost var r4 := [TRUE] + (HOLE + []);
        ghost var r3 := [PAD] + r4;
        ghost var r2 := IntCode(item.width) + r3;
        ghost var r1 := HOLE + r2;
        ghost var target := was + ([COUNT] + r1);
        GuardFrontJoins(was, item, r2);
        :- EmitOp(COUNT, r1, target);
        r, j1 := EmitJmp(r2, target);
        if r.Throw? { return; }
        :- EmitInt(item.width, r3, target);
        :- EmitOp(PAD, r4, target);
        :- EmitOp(TRUE, HOLE + [], target);
        r, j2 := EmitJmp([], target);
        if r.Throw? { return; }
        Assoc(was, [COUNT], r1);
        assert Emitted() == Emitted() + [] == (was + [COUNT]) + (HOLE + r2);
        r := EmitLink(j1, pc, was + [COUNT], r2);
      } else {
        ghost var r1 := [NOT] + (HOLE + []);
        ghost var target := was + ([COUNT] + r1);
        :- EmitOp(COUNT, r1, target);
        :- EmitOp(NOT, HOLE + [], target);
        r, j2 := EmitJmp([], target);
        if r.Throw? { return; }
        assert Emitted() == Emitted() + [] == was + (GuardFront(item) + HOLE);
      }
    }

    method EmitGuarded(item: Item) returns (r: Status)
      requires Emitting() && item.Conv? && ValidItem(item) && item.bytes > 0
      modifies this`pc, code
      ensures Emitting() && Added(old(Emitted()), Emitted(), r, ItemCode(item))
    {
      hide ConvCode, GuardFront, JumpCode, GuardCode;
      ghost var was := Emitted();
      GuardSplits(item);
      :- EmitGuard(item);
      ghost var front, back := was + GuardFront(item), ConvCode(item);
      Assoc(was, GuardFront(item), HOLE);
      var from := pc - 6;
      r := EmitConversion(item, [], (front + HOLE) + (back + []));
      if r.Throw? { return; }
      assert Emitted() == front + (HOLE + back) by {
        assert Emitted() + [] == Emitted();
        assert back + [] == back;
        Assoc(front, HOLE, back);
      }
      r := EmitLink(from, pc, front, back);
      GuardJoins(was, item);
    }

    /** A whole conversion: guard, opcodes, and the guard linked to their end. */
    method EmitItem(item: Item) returns (r: Status)
      requires Emitting() && item.Conv? && ValidItem(item)
      modifies this`pc, code
      ensures Emitting() && Added(old(Emitted()), Emitted(), r, ItemCode(item))
    {
      hide ConvCode;
      if item.bytes > 0 {
        r := EmitGuarded(item);
      } else {
        ghost var c := ConvCode(item);
        ghost var was := Emitted();
        assert ItemCode(item) == [] + c == c == c + [];
        r := EmitConversion(item, [], was + (c + []));
        assert Emitted() + [] == Emitted();
      }
    }

    /** The scanning loop of emit_unit: every item is emitted as it is read. */
    method EmitItems(fmt: CString, start: nat, limit: int) returns (r: Status, s: Scan)
      requires Emitting() && start <= |fmt|
      modifies this`pc, code
      ensures Emitting()
      ensures var scanned := ScanAll(fmt, limit, ScanStart(start));
        if r.Ok? then scanned == Done(s) && Emitted() == old(Emitted()) + ItemsCode(s.items)
        else scanned == Bad(r.error) || (r == Throw(NOMEM) && NoRoom(old(pc), scanned))
    {
      hide ItemCode, ItemsCode, ScanStep, ValidItem;
      ghost var was := Emitted();
      r, s := Ok, ScanStart(start);
      NoItems();
      while true
        invariant Emitting() && r == Ok && ScanOk(fmt, limit, s)
        invariant ScanAll(fmt, limit, ScanStart(start)) == ScanAll(fmt, limit, s)
        invariant Emitted() == was + ItemsCode(s.items)
        decreases |fmt| - s.i
      {
        var turn := ReadTurn(fmt, limit, s);
        match turn
        case Done(_) => return;
        case Bad(e) => r := Throw(e); return;
        case More(next) =>
          ScanPrefix(fmt, limit, next);
          TurnAdds(fmt, limit, s);
          if |next.items| > |s.items| {
            var item := next.items[|s.items|];
            ItemAppended(s.items, item);
            if item.Lit? {
              ghost var mid := Emitted();
              r := EmitPutc(item.ch, [], mid + (ItemCode(item) + []));
              assert Emitted() + [] == Emitted();
              assert ItemCode(item) + [] == ItemCode(item);
            } else {
              r := EmitItem(item);
            }
            if r.Throw? { return; }
            Assoc(was, ItemsCode(s.items), ItemCode(item));
          }
          s := next;
      }
    }

    /** Push the counter; at the top of the loop compare it with the count. */
    method EmitCounter(loop: nat, ghost rest: seq<byte>, ghost target: seq<byte>) returns (r: Status, l1: nat)
      requires Emitting() && Int32(loop)
      requires Emitted() + ([ZERO] + ([DUP] + (IntCode(loop) + ([SWAP] + ([SUB] + ([NOT] + rest)))))) == target
      modifies this`pc, code
      ensures Emitting() && Toward(r, Emitted(), rest, target)
      ensures r.Ok? ==> l1 == old(pc) + 1
    {
      hide IntCode;
      ghost var r3 := [SWAP] + ([SUB] + ([NOT] + rest));
      ghost var r2 := IntCode(loop) + r3;
      l1 := 0;
      r := EmitOp(ZERO, [DUP] + r2, target);
      if r.Throw? { return; }
      l1 := pc;
      r := EmitOp(DUP, r2, target);
      if r.Throw? { return; }
      r := EmitInt(loop, r3, target);
      if r.Throw? { return; }
      r := EmitOp(SWAP, [SUB] + ([NOT] + rest), target);
      if r.Throw? { return; }
      r := EmitOp(SUB, [NOT] + rest, target);
      if r.Throw? { return; }
      r := EmitOp(NOT, rest, target);
    }

    /** Compare the input left with the unit size, a hole of two bytes at c1. */
    method EmitShort(ghost rest: seq<byte>, ghost target: seq<byte>) returns (r: Status, c1: nat)
      requires Emitting()
      requires Emitted() + ([COUNT] + ([TRAP] + ([TRAP] + ([LT] + ([OR] + rest))))) == target
      modifies this`pc, code
      ensures Emitting() && Toward(r, Emitted(), rest, target)
      ensures r.Ok? ==> c1 == old(pc) + 1
    {
      c1 := 0;
      r := EmitOp(COUNT, [TRAP] + ([TRAP] + ([LT] + ([OR] + rest))), target);
      if r.Throw? { return; }
      c1 := pc;
      r := EmitOp(TRAP, [TRAP] + ([LT] + ([OR] + rest)), target);
      if r.Throw? { return; }
      r := EmitOp(TRAP, [LT] + ([OR] + rest), target);
      if r.Throw? { return; }
      r := EmitOp(LT, [OR] + rest, target);
      if r.Throw? { return; }
      r := EmitOp(OR, rest, target);
    }

    /** From the loop counter to the first item. The unit size at c1 and the exit jump at l2
        are still holes; l1 is the top of the loop. */
    method EmitTop(loop: nat, nopad: bool) returns (r: Status, l1: nat, c1: nat, l2: nat)
      requires Emitting() && Int32(loop)
      modifies this`pc, code
      ensures Emitting() && Added(old(Emitted()), Emitted(), r, OpenTop(loop, nopad))
      ensures r.Ok? ==> l1 == old(pc) + 1 && l2 == l1 + |OpenTest(loop, nopad)|
      ensures r.Ok? && nopad ==> c1 == l1 + |TestFront(loop)|
    {
      hide IntCode, OpenTop, OpenTest, TestFront;
      ghost var was := Emitted();
      ghost var r7 := [ONE] + ([ADD] + []);
      ghost var r6 := HOLE + r7;
      ghost var size := if nopad then [COUNT] + ([TRAP] + ([TRAP] + ([LT] + ([OR] + r6)))) else r6;
      ghost var target := was + OpenTop(loop, nopad);
      OpenTopPlan(was, loop, nopad);
      l1, c1, l2 := 0, 0, 0;
      r, l1 := EmitCounter(loop, size, target);
      if r.Throw? { return; }
      if nopad {
        r, c1 := EmitShort(r6, target);
        if r.Throw? { return; }
      }
      r, l2 := EmitJmp(r7, target);
      if r.Throw? { return; }
      r := EmitOp(ONE, [ADD] + [], target);
      if r.Throw? { return; }
      r := EmitOp(ADD, [], target);
      assert Emitted() + [] == Emitted();
    }

    /** The unused rest of the unit */
    method EmitSkip(u: Unit) returns (r: Status)
      requires Emitting() && Int32(u.skip)
      modifies this`pc, code
      ensures Emitting() && Added(old(Emitted()), Emitted(), r, SkipCode(u))
    {
      hide IntCode;
      ghost var was := Emitted();
      r := Ok;
      if u.skip > 0 {
        ghost var r2 := [READ] + ([POP] + []);
        ghost var target := was + (IntCode(u.skip) + r2);
        assert IntCode(u.skip) + r2 == SkipCode(u);
        :- EmitInt(u.skip, r2, target);
        :- EmitOp(READ, [POP] + [], target);
        :- EmitOp(POP, [], target);
      }
      assert Emitted() + [] == Emitted();
    }

    /** Drop the counter and chop */
    method EmitEnd(u: Unit) returns (r: Status)
      requires Emitting() && ValidUnit(u)
      modifies this`pc, code
      ensures Emitting() && Added(old(Emitted()), Emitted(), r, [POP] + ChopCode(u))
    {
      hide IntCode;
      ghost var was := Emitted();
      ghost var r1 := if u.loop > 1 && u.chop > 0 then IntCode(u.chop) + ([CHOP] + []) else [];
      ghost var target := was + ([POP] + r1);
      assert ChopCode(u) == r1;
      :- EmitOp(POP, r1, target);
      if u.loop > 1 && u.chop > 0 {
        :- EmitInt(u.chop, [CHOP] + [], target);
        :- EmitOp(CHOP, [], target);
      }
      assert Emitted() + [] == Emitted();
      return Ok;
    }

    /** The size of the unit, patched in as an immediate of one byte */
    method PatchSize(c1: nat, size: byte, ghost front: seq<byte>, ghost back: seq<byte>)
      requires Emitting() && c1 == |front| && Emitted() == front + ([TRAP, TRAP] + back)
      modifies code
      ensures Emitting() && Emitted() == front + ([I8, size] + back)
    {
      ghost var was := Emitted();
      assert was[..c1] == front && was[c1 + 2..] == back;
      code[c1] := I8;
      code[c1 + 1] := size;
      assert code[..c1] == was[..c1];
      assert code[c1 + 2..pc] == was[c1 + 2..];
      assert code[..pc] == code[..c1] + ([code[c1], code[c1 + 1]] + code[c1 + 2..pc]);
    }

    /** The jump back and the exit, once the body is there */
    method EmitJumps(u: Unit, l1: nat, l2: nat, ghost front: seq<byte>) returns (r: Status)
      requires Emitting() && l1 == |front| && l2 == l1 + |TestCode(u)|
      requires Emitted() == (front + TestCode(u)) + (HOLE + OpenBody(u))
      modifies this`pc, code
      ensures Emitting() && Added(front, Emitted(), r, LoopCode(u))
    {
      hide JumpCode, TestCode, OpenBody, BodyCode, LoopCode;
      ghost var test, b := TestCode(u), BodyCode(u);
      BodyCloses(u);
      LoopIs(u);
      ghost var mid := (front + test) + (HOLE + b);
      ghost var target := Emitted() + ([TRUE] + (HOLE + []));
      assert target == mid + HOLE;
      :- EmitOp(TRUE, HOLE + [], target);
      var from;
      r, from := EmitJmp([], target);
      if r.Throw? { return; }
      assert Emitted() == Emitted() + [] == mid + (HOLE + []);
      r := EmitLink(from, l1, mid, []);
      ghost var j2 := JumpCode(l1 - from);
      assert mid + (j2 + []) == (front + test) + (HOLE + (b + j2));
      r := EmitLink(l2, pc, front + test, b + j2);
      Assoc(front, test, JumpCode(6 + |b| + 6) + (b + j2));
    }

    /** The unit size, where the unit is marked ? */
    method EmitSize(u: Unit, c1: nat, ghost was: seq<byte>) returns (r: Status)
      requires Emitting() && (u.nopad ==> c1 == |was| + 1 + |TestFront(u.loop)|)
      requires Emitted() == ((was + [ZERO]) + OpenTest(u.loop, u.nopad)) + (HOLE + OpenBody(u)) && 0 <= Consumes(u)
      modifies code
      ensures Emitting()
      ensures r == if u.nopad && Consumes(u) > 255 then Throw(RANGE) else Ok
      ensures r.Ok? ==> Emitted() == ((was + [ZERO]) + TestCode(u)) + (HOLE + OpenBody(u))
    {
      hide IntCode, OpenBody;
      if u.nopad {
        if Consumes(u) > 255 {
          return Throw(RANGE);
        }
        ghost var back := [LT, OR] + (HOLE + OpenBody(u));
        ghost var front := (was + [ZERO]) + TestFront(u.loop);
        assert Emitted() == front + ([TRAP, TRAP] + back) by { TestSplits(u, TRAP, TRAP); SizeSplits(was, u, TRAP, TRAP); }
        PatchSize(c1, Consumes(u), front, back);
        TestSplits(u, I8, Consumes(u));
        SizeSplits(was, u, I8, Consumes(u));
      }
      return Ok;
    }

    /** emit_unit up to the end of its body */
    method EmitFront(fmt: CString, head: Head) returns (r: Status, u: Unit, next: nat, l1: nat, l2: nat)
      requires Emitting() && head.next <= |fmt| && head.loop <= 2147483639 && -1 <= head.limit <= 2147483639
      modifies this`pc, code
      ensures Emitting()
      ensures var p := ParseUnit(fmt, head); var was := old(Emitted());
        if r.Ok? then
          && p == Parsed(u, next) && ValidUnit(u) && 0 <= Consumes(u)
          && Emitted() == ((was + [ZERO]) + TestCode(u)) + (HOLE + OpenBody(u))
          && l1 == |was| + 1 && l2 == l1 + |TestCode(u)|
        else UnitFails(p, |was|, r)
    {
      hide ItemsCode, UnitCode, OpenTop, OpenTest, TestFront, OpenBody, TestCode, SkipCode, ScanAll, ChopCode,
        LoopCode, BodyCode, Consumes, ValidUnit, ParseUnit;
      ghost var was := Emitted();
      var c1;
      u, next := Unit(0, false, [], 0, 0), 0;
      UnitLength(fmt, head);
      r, l1, c1, l2 := EmitTop(head.loop, head.nopad);
      if r.Throw? { return; }
      var s;
      r, s := EmitItems(fmt, head.next, head.limit);
      UnitScan(fmt, head);
      if r.Throw? { return; }
      u, next := MakeUnit(head, s), s.i;
      MadeUnit(fmt, head, s);
      r := EmitSkip(u);
      if r.Throw? { return; }
      UnitOpens(was, u);
      r := EmitSize(u, c1, was);
      TestLength(u);
    }

    /** emit_unit */
    method EmitUnit(fmt: CString, head: Head) returns (r: Status, next: nat, size: nat)
      requires Emitting() && head.next <= |fmt| && head.loop <= 2147483639 && -1 <= head.limit <= 2147483639
      modifies this`pc, code
      ensures Emitting()
      ensures var p := ParseUnit(fmt, head);
        if r.Ok? then p.Parsed? && Emitted() == old(Emitted()) + UnitCode(p.value)
                   && next == p.next && size == Consumes(p.value) * p.value.loop
        else UnitFails(p, old(pc), r)
    {
      hide UnitCode, OpenTop, OpenBody, TestCode, ChopCode, LoopCode, BodyCode, JumpCode, Consumes, ValidUnit, ParseUnit;
      ghost var was := Emitted();
      size := 0;
      var u, l1, l2;
      UnitLength(fmt, head);
      r, u, next, l1, l2 := EmitFront(fmt, head);
      if r.Throw? { return; }
      r := EmitJumps(u, l1, l2, was + [ZERO]);
      if r.Throw? { return; }
      r := EmitEnd(u);
      UnitCloses(was, u);
      size := SizeOf(u);
    }

    /** The units of one line, behind OP_RESET */
    method EmitLine(fmt: CString, start: nat, nopad0: bool) returns (r: Status, i: nat, blocksize: nat)
      requires Emitting() && start < |fmt| && !IsSpace(fmt[start], true)
      modifies this`pc, code
      ensures Emitting()
      ensures var p := ParseUnits(fmt, start, nopad0, []);
        if r.Ok? then p.Parsed? && i == p.next && blocksize == LineSize(p.value)
                   && Emitted() == old(Emitted()) + LineCode(p.value)
        else if p.Parsed? then r == Throw(NOMEM) && old(pc) + |LineCode(p.value)| > CODE_LIMIT
        else r == Throw(p.error) || r == Throw(NOMEM)
    {
      hide UnitCode, ParseUnit, ParseHead, Consumes;
      ghost var was := Emitted();
      i, blocksize := start, 0;
      r := EmitOp(RESET, [], was + ([RESET] + []));
      if r.Throw? { return; }
      assert Emitted() == Emitted() + [] == was + [RESET] == was + [RESET] + UnitsCode([]);
      var nopad := nopad0;
      ghost var units: Line := [];
      while true
        invariant Emitting() && r == Ok && i < |fmt| && !IsSpace(fmt[i], true)
        invariant ParseUnits(fmt, start, nopad0, []) == ParseUnits(fmt, i, nopad, units)
        invariant Emitted() == was + [RESET] + UnitsCode(units) && blocksize == LineSize(units)
        decreases |fmt| - i
      {
        var head := ReadHead(fmt, i, nopad);
        ghost var p := ParseUnit(fmt, head);
        UnitMoves(fmt, i, head);
        UnitsPrefix(fmt, i, nopad, units);
        var j, size;
        r, j, size := EmitUnit(fmt, head);
        if r.Throw? { return; }
        UnitAppended(units, p.value);
        Assoc(was + [RESET], UnitsCode(units), UnitCode(p.value));
        units, blocksize := units + [p.value], blocksize + size;
        j := SkipSpaces(fmt, j, false);
        SkipWsSpaces(fmt, p.next);
        if Ch(fmt, j) == 0 || Ch(fmt, j) == NEWLINE {
          i := j;
          assert ParseUnits(fmt, start, nopad0, []) == Parsed(units, j);
          Assoc(was, [RESET], UnitsCode(units));
          return;
        }
        i, nopad := j, head.nopad;
      }
    }

    /** hxd_compile, on a context whose program counter is 0 */
    method Compile(fmt: CString, nopad: bool) returns (r: Status, blocksize: nat)
      requires code.Length == CODE_SIZE && pc == 0
      modifies this`pc, code
      ensures Emitting()
      ensures var p := Parse(fmt, nopad);
        if r.Ok? then p.Parsed? && |LinesCode(p.value)| < CODE_LIMIT
                   && code[..] == Image(p.value) && blocksize == BlockSize(p.value)
        else && (forall k :: 0 <= k < CODE_SIZE ==> code[k] == 0) && pc == 0
             && (if p.Parsed? then r == Throw(NOMEM) && |LinesCode(p.value)| >= CODE_LIMIT
                 else r == Throw(p.error) || r == Throw(NOMEM))
    {
      r, blocksize := EmitProgram(fmt, nopad);
      if r.Throw? {
        pc := 0;
        forall k | 0 <= k < code.Length {
          code[k] := 0;
        }
      }
    }

    method EmitProgram(fmt: CString, nopad: bool) returns (r: Status, blocksize: nat)
      requires code.Length == CODE_SIZE && pc == 0
      modifies this`pc, code
      ensures Emitting()
      ensures var p := Parse(fmt, nopad);
        if r.Ok? then p.Parsed? && |LinesCode(p.value)| < CODE_LIMIT
                   && code[..] == Image(p.value) && blocksize == BlockSize(p.value)
        else if p.Parsed? then r == Throw(NOMEM) && |LinesCode(p.value)| >= CODE_LIMIT
        else r == Throw(p.error) || r == Throw(NOMEM)
    {
      hide UnitsCode, ParseUnits, LineSize, LineCode;
      var i := 0;
      r, blocksize := Ok, 0;
      ghost var lines: Program := [];
      assert Emitted() == LinesCode(lines);
      i := SkipSpaces(fmt, i, true);
      while Ch(fmt, i) != 0
        invariant Emitting() && r == Ok && i <= |fmt| && i == SkipWs(fmt, i, true)
        invariant Parse(fmt, nopad) == ParseLines(fmt, i, nopad, lines)
        invariant Emitted() == LinesCode(lines) && blocksize == BlockSize(lines)
        decreases |fmt| - i
      {
        ghost var p := ParseUnits(fmt, i, nopad, []);
        LinesPrefix(fmt, i, nopad, lines);
        var j, size;
        r, j, size := EmitLine(fmt, i, nopad);
        if r.Throw? { return; }
        LineAppended(lines, p.value);
        lines := lines + [p.value];
        if size > blocksize {
          blocksize := size;
        }
        i := SkipSpaces(fmt, j, true);
        LinesSkip(fmt, j, nopad, lines);
      }
      ghost var was := Emitted();
      r := EmitOp(HALT, [], was + ([HALT] + []));
      if r.Throw? { return; }
      assert Emitted() == Emitted() + [] == was + [HALT];
      ghost var done := Emitted();
      forall k | pc <= k < code.Length {
        code[k] := TRAP;
      }
      assert code[..] == code[..pc] + code[pc..];
      assert code[..pc] == done;
    }
  }

  function LineCode(line: Line): seq<byte> {
    [RESET] + UnitsCode(line)
  }

  lemma UnitAppended(units: Line, u: Unit)
    ensures UnitsCode(units + [u]) == UnitsCode(units) + UnitCode(u)
    ensures LineSize(units + [u]) == LineSize(units) + Consumes(u) * u.loop
  {
    hide UnitCode;
    assert (units + [u])[..|units|] == units;
  }

  lemma LineAppended(lines: Program, line: Line)
    ensures LinesCode(lines + [line]) == LinesCode(lines) + LineCode(line)
    ensures BlockSize(lines + [line]) == Max(BlockSize(lines), LineSize(line))
  {
    hide UnitsCode, LineSize;
    assert (lines + [line])[..|lines|] == lines;
  }

  lemma LinesSkip(fmt: CString, j: nat, nopad: bool, lines: Program)
    requires j <= |fmt|
    ensures var i := SkipWs(fmt, j, true);
      SkipWs(fmt, i, true) == i && ParseLines(fmt, j, nopad, lines) == ParseLines(fmt, i, nopad, lines)
  {
  }

  /** Parsing on only adds code. */
  lemma {:induction false} UnitsPrefix(fmt: CString, i: nat, nopad: bool, units: Line)
    requires i < |fmt| && !IsSpace(fmt[i], true)
    ensures var p := ParseUnits(fmt, i, nopad, units); var q := ParseUnit(fmt, ParseHead(fmt, i, nopad));
      p.Parsed? ==> q.Parsed? && |UnitsCode(units)| + |UnitCode(q.value)| <= |UnitsCode(p.value)|
    decreases |fmt| - i
  {
    hide UnitCode, ParseUnit, ParseHead;
    var head := ParseHead(fmt, i, nopad);
    UnitMoves(fmt, i, head);
    var q := ParseUnit(fmt, head);
    if q.Parsed? {
      UnitAppended(units, q.value);
      SkipWsSpaces(fmt, q.next);
      var k := SkipWs(fmt, q.next, false);
      if Ch(fmt, k) != 0 && Ch(fmt, k) != NEWLINE {
        UnitsPrefix(fmt, k, head.nopad, units + [q.value]);
      }
    }
  }

  lemma {:induction false} LinesPrefix(fmt: CString, i: nat, nopad: bool, lines: Program)
    requires i <= |fmt|
    ensures var p := ParseLines(fmt, i, nopad, lines);
      p.Parsed? ==> |LinesCode(lines)| <= |LinesCode(p.value)|
    ensures var p := ParseLines(fmt, i, nopad, lines); var j := SkipWs(fmt, i, true);
      p.Parsed? && Ch(fmt, j) != 0 ==> var q := ParseUnits(fmt, j, nopad, []);
        q.Parsed? && |LinesCode(lines)| + |LineCode(q.value)| <= |LinesCode(p.value)|
    decreases |fmt| - i
  {
    hide LineCode, UnitsCode;
    var j := SkipWs(fmt, i, true);
    if Ch(fmt, j) != 0 {
      var q := ParseUnits(fmt, j, nopad, []);
      if q.Parsed? {
        LineAppended(lines, q.value);
        LinesPrefix(fmt, q.next, nopad, lines + [q.value]);
      }
    }
  }

  /** Why a unit is not compiled: it does not parse, or there is no room for it. */
  ghost predicate UnitFails(p: Parsed<Unit>, pc: nat, r: Status) {
    if p.Parsed? then r == Throw(NOMEM) && pc + |UnitCode(p.value)| > CODE_LIMIT
    else r == Throw(p.error) || r == Throw(NOMEM)
  }

  lemma LoopIs(u: Unit)
    ensures var b := BodyCode(u);
      LoopCode(u) == TestCode(u) + (JumpCode(6 + |b| + 6) + (b + JumpCode(-(|TestCode(u)| + 6 + |b|))))
  {
    hide JumpCode, TestCode, BodyCode;
  }

  /** A unit parses exactly when its scan ends, with the items of the scan. */
  lemma UnitScan(fmt: CString, head: Head)
    requires head.next <= |fmt|
    ensures var p := ParseUnit(fmt, head); var r := ScanAll(fmt, head.limit, ScanStart(head.next));
      && (r.Bad? ==> p == Refused(r.error))
      && (p.Parsed? ==> r.Done? && p.value.items == r.scan.items)
  {
  }

  function SizeOf(u: Unit): (r: nat)
    requires 0 <= Consumes(u)
    ensures r == Consumes(u) * u.loop
  {
    Consumes(u) * u.loop
  }

  /** OpenTest up to the unit size */
  function TestFront(loop: nat): seq<byte> {
    [DUP] + (IntCode(loop) + [SWAP, SUB, NOT, COUNT])
  }

  /** BodyCode before the condition of the jump back */
  function OpenBody(u: Unit): seq<byte> {
    [ONE, ADD] + (ItemsCode(u.items) + SkipCode(u))
  }

  lemma TestSplits(u: Unit, x: byte, y: byte)
    requires u.nopad && 0 <= Consumes(u) <= 255
    ensures x == y == TRAP ==> OpenTest(u.loop, true) == TestFront(u.loop) + [x, y, LT, OR]
    ensures x == I8 && y == Consumes(u) ==> TestCode(u) == TestFront(u.loop) + [x, y, LT, OR]
  {
    hide IntCode;
    assert [SWAP, SUB, NOT] + [COUNT, x, y, LT, OR] == [SWAP, SUB, NOT, COUNT] + [x, y, LT, OR];
    Assoc(IntCode(u.loop), [SWAP, SUB, NOT, COUNT], [x, y, LT, OR]);
    Assoc([DUP], IntCode(u.loop) + [SWAP, SUB, NOT, COUNT], [x, y, LT, OR]);
  }

  lemma SizeSplits(was: seq<byte>, u: Unit, x: byte, y: byte)
    ensures ((was + [ZERO]) + (TestFront(u.loop) + [x, y, LT, OR])) + (HOLE + OpenBody(u))
         == ((was + [ZERO]) + TestFront(u.loop)) + ([x, y] + ([LT, OR] + (HOLE + OpenBody(u))))
  {
    hide TestFront, OpenBody;
    assert [x, y, LT, OR] == [x, y] + [LT, OR];
  }

  lemma TestLength(u: Unit)
    ensures |TestCode(u)| == |OpenTest(u.loop, u.nopad)|
  {
    hide IntCode;
  }

  lemma UnitOpens(was: seq<byte>, u: Unit)
    ensures was + OpenTop(u.loop, u.nopad) + ItemsCode(u.items) + SkipCode(u)
         == ((was + [ZERO]) + OpenTest(u.loop, u.nopad)) + (HOLE + OpenBody(u))
  {
    hide ItemsCode, SkipCode, OpenTest;
    var test, items, skip := OpenTest(u.loop, u.nopad), ItemsCode(u.items), SkipCode(u);
    assert was + ([ZERO] + (test + (HOLE + [ONE, ADD]))) + items + skip
        == ((was + [ZERO]) + test) + (HOLE + ([ONE, ADD] + (items + skip)));
  }

  lemma BodyCloses(u: Unit)
    ensures OpenBody(u) + [TRUE] == BodyCode(u)
  {
    hide ItemsCode, SkipCode;
  }

  lemma UnitCloses(was: seq<byte>, u: Unit)
    ensures (was + [ZERO]) + LoopCode(u) + ([POP] + ChopCode(u)) == was + UnitCode(u)
  {
    hide LoopCode, ChopCode;
  }

  lemma MadeUnit(fmt: CString, head: Head, s: Scan)
    requires head.next <= |fmt| && head.loop <= 2147483639 && -1 <= head.limit <= 2147483639
    requires ScanAll(fmt, head.limit, ScanStart(head.next)) == Done(s)
    ensures var u := MakeUnit(head, s);
      && Int32(u.skip) && 0 <= Consumes(u) && ((u.nopad && Consumes(u) > 255) || ValidUnit(u))
      && ParseUnit(fmt, head) == if u.nopad && Consumes(u) > 255 then Refused(RANGE) else Parsed(u, s.i)
  {
    hide ValidItem, ItemsBytes, ScanAll;
  }

  /** How long a unit is, of what it is made. */
  lemma UnitLength(fmt: CString, head: Head)
    requires head.next <= |fmt|
    ensures var p := ParseUnit(fmt, head); p.Parsed? ==>
      var u := p.value;
      && |UnitCode(u)| == 1 + |LoopCode(u)| + |[POP] + ChopCode(u)|
      && |LoopCode(u)| == |TestCode(u)| + 6 + |BodyCode(u)| + 6
      && 1 + |LoopCode(u)| == |OpenTop(head.loop, head.nopad)| + |ItemsCode(u.items)| + |SkipCode(u)| + 7
  {
    hide ItemsCode, SkipCode, IntCode, ChopCode;
  }

  /** The code of a unit before its first item, with holes for the unit size and the exit jump */
  function OpenTop(loop: nat, nopad: bool): seq<byte> {
    [ZERO] + (OpenTest(loop, nopad) + (HOLE + [ONE, ADD]))
  }

  function OpenTest(loop: nat, nopad: bool): seq<byte> {
    [DUP] + (IntCode(loop) + ([SWAP, SUB, NOT] + (if nopad then [COUNT, TRAP, TRAP, LT, OR] else [])))
  }

  lemma OpenTopPlan(was: seq<byte>, loop: nat, nopad: bool)
    ensures var r6 := HOLE + ([ONE] + ([ADD] + []));
      var size := if nopad then [COUNT] + ([TRAP] + ([TRAP] + ([LT] + ([OR] + r6)))) else r6;
      OpenTop(loop, nopad) == [ZERO] + ([DUP] + (IntCode(loop) + ([SWAP] + ([SUB] + ([NOT] + size)))))
    ensures |OpenTest(loop, nopad)| == 4 + |IntCode(loop)| + if nopad then 5 else 0
    ensures |TestFront(loop)| == 5 + |IntCode(loop)|
  {
    hide IntCode;
    var r6 := HOLE + [ONE, ADD];
    assert [ONE, ADD] == [ONE] + ([ADD] + []);
    if nopad {
      var five := [COUNT, TRAP, TRAP, LT, OR];
      assert five + r6 == [COUNT] + ([TRAP] + ([TRAP] + ([LT] + ([OR] + r6))));
      assert ([SWAP, SUB, NOT] + five) + r6 == [SWAP] + ([SUB] + ([NOT] + (five + r6)));
      assert OpenTest(loop, nopad) + r6 == [DUP] + (IntCode(loop) + (([SWAP, SUB, NOT] + five) + r6));
    } else {
      assert ([SWAP, SUB, NOT] + []) + r6 == [SWAP] + ([SUB] + ([NOT] + r6));
      assert OpenTest(loop, nopad) + r6 == [DUP] + (IntCode(loop) + (([SWAP, SUB, NOT] + []) + r6));
    }
  }

  lemma NoItems()
    ensures ItemsCode([]) == [] && ItemsBytes([]) == 0
  {
  }

  /** A turn of the scan adds one item or none. */
  lemma TurnAdds(fmt: CString, limit: int, s: Scan)
    requires ScanOk(fmt, limit, s)
    ensures match ScanStep(fmt, limit, s)
      case More(t) => t.items == s.items
                   || (|t.items| == |s.items| + 1 && t.items == s.items + [t.items[|s.items|]] && ValidItem(t.items[|s.items|]))
      case _ => true
  {
    hide ValidItem, GetConversion;
  }

  function ScanStart(i: nat): Scan {
    Scan(i, false, false, [], 0)
  }

  /** The items do not fit behind pc bytes of code. */
  ghost predicate NoRoom(pc: nat, r: Scanned) {
    r.Done? ==> pc + |ItemsCode(r.scan.items)| > CODE_LIMIT
  }

  lemma ItemAppended(items: seq<Item>, item: Item)
    ensures ItemsCode(items + [item]) == ItemsCode(items) + ItemCode(item)
    ensures ItemsBytes(items + [item]) == ItemsBytes(items) + ItemBytes(item)
  {
    hide ItemCode;
    assert (items + [item])[..|items|] == items;
  }

  /** Scanning on only adds code. */
  lemma {:induction false} ScanPrefix(fmt: CString, limit: int, s: Scan)
    requires ScanOk(fmt, limit, s)
    ensures var r := ScanAll(fmt, limit, s); r.Done? ==> |ItemsCode(s.items)| <= |ItemsCode(r.scan.items)|
    decreases |fmt| - s.i
  {
    hide ItemCode, GetConversion;
    var r := ScanStep(fmt, limit, s);
    if r.More? {
      ScanPrefix(fmt, limit, r.scan);
      if |r.scan.items| > |s.items| {
        ItemAppended(s.items, r.scan.items[|s.items|]);
        assert r.scan.items == s.items + [r.scan.items[|s.items|]];
      }
    }
  }

  /** GuardCode up to its last jump */
  function GuardFront(item: Item): seq<byte>
    requires item.Conv?
  {
    if item.width > 0 then
      var pad := IntCode(item.width) + [PAD, TRUE];
      [COUNT] + (JumpCode(6 + |pad| + 6) + pad)
    else [COUNT, NOT]
  }

  lemma GuardSplits(item: Item)
    requires item.Conv? && item.bytes > 0
    ensures GuardCode(item) == GuardFront(item) + JumpCode(6 + |ConvCode(item)|)
  {
    hide IntCode, ConvCode;
    var j := JumpCode(6 + |ConvCode(item)|);
    if item.width > 0 {
      var pad := IntCode(item.width) + [PAD, TRUE];
      var j1 := JumpCode(6 + |pad| + 6);
      assert [COUNT] + (j1 + (pad + j)) == [COUNT] + (j1 + pad) + j;
    }
  }

  lemma GuardFrontJoins(was: seq<byte>, item: Item, r2: seq<byte>)
    requires item.Conv? && item.width > 0 && r2 == IntCode(item.width) + ([PAD] + ([TRUE] + (HOLE + [])))
    ensures (was + [COUNT]) + (JumpCode(6 + |r2|) + r2) == was + (GuardFront(item) + HOLE)
    ensures |r2| == |IntCode(item.width)| + 8
  {
    hide IntCode, JumpCode;
    var pad := IntCode(item.width) + [PAD, TRUE];
    assert r2 == pad + HOLE;
    var j := JumpCode(6 + |r2|);
    assert (was + [COUNT]) + (j + (pad + HOLE)) == was + (([COUNT] + (j + pad)) + HOLE);
  }

  lemma GuardJoins(was: seq<byte>, item: Item)
    requires item.Conv? && item.bytes > 0
    requires GuardCode(item) == GuardFront(item) + JumpCode(6 + |ConvCode(item)|)
    ensures (was + GuardFront(item)) + (JumpCode(6 + |ConvCode(item)|) + ConvCode(item)) == was + ItemCode(item)
  {
    hide ConvCode, GuardFront, JumpCode, GuardCode;
    var g, j, c := GuardFront(item), JumpCode(6 + |ConvCode(item)|), ConvCode(item);
    assert (was + g) + (j + c) == was + ((g + j) + c);
  }

  lemma GeneralWith(item: Item, rest: seq<byte>)
    requires item.Conv?
    ensures GeneralCode(item) + rest ==
      IntCode(ReadBytes(item)) + ([READ] + (IntCode(item.flags) + (IntCode(item.width)
        + (IntCode(item.prec) + (IntCode(item.fc) + ([CONV] + rest))))))
  {
    hide IntCode;
  }
}
