/** Every jump of a compiled format lands on an opcode inside the code, and no placeholder is left. */
module HexdumpLinks {
  import opened Arithmetic

  import opened HexdumpMachine
  import opened HexdumpFormat

  /** The bytes an opcode takes with its operands */
  function OpLength(op: byte): (n: nat)
    ensures n >= 1
  {
    if op == I8 || op == PUTC then 2 else if op == I16 then 3 else if op == I32 then 5 else 1
  }

  /** Stepping from opcode to opcode from the start of b comes to k. */
  predicate Mark(b: seq<byte>, k: int)
    decreases |b|
  {
    k == 0 || (b != [] && OpLength(b[0]) <= |b| && Mark(b[OpLength(b[0])..], k - OpLength(b[0])))
  }

  /** The last opcode ends with b. */
  predicate Whole(b: seq<byte>) { Mark(b, |b|) }

  /** Where the jump that starts at p goes */
  function Target(b: seq<byte>, p: nat): int
    requires p + 6 <= |b|
  {
    if b[p + 4] == ADD then p + Join(b[p + 2], b[p + 3]) else p - Join(b[p + 2], b[p + 3])
  }

  /** The six opcode bytes of a jump stand at p, and it goes to an opcode of b or to its end. */
  predicate JumpAt(b: seq<byte>, p: nat) {
    && p + 6 <= |b| && b[p] == PC && b[p + 1] == I16 && (b[p + 4] == ADD || b[p + 4] == SUB) && b[p + 5] == JMP
    && 0 <= Target(b, p) <= |b| && Mark(b, Target(b, p))
  }

  /** The opcode at p is no placeholder; a jump starts with OP_PC and only so. */
  predicate Sound(b: seq<byte>, p: nat)
    requires p < |b|
  {
    && b[p] != TRAP
    && (b[p] == PC ==> JumpAt(b, p))
    && (b[p] == JMP ==> p >= 5 && Mark(b, p - 5) && b[p - 5] == PC)
  }

  ghost predicate SoundFrom(b: seq<byte>, lo: nat, hi: nat)
    requires hi <= |b|
  {
    forall p :: lo <= p < hi && Mark(b, p) ==> Sound(b, p)
  }

  ghost predicate Closed(b: seq<byte>) { Whole(b) && SoundFrom(b, 0, |b|) }

  // -------------------------------------------------------------------- marks

  lemma {:induction false} MarkBounds(b: seq<byte>, k: int)
    requires Mark(b, k)
    ensures 0 <= k <= |b|
    decreases |b|
  {
    if k != 0 { MarkBounds(b[OpLength(b[0])..], k - OpLength(b[0])); }
  }

  /** Behind a whole piece the marks are those of what follows; up to it they are its own. */
  lemma {:induction false} MarkJoin(a: seq<byte>, b: seq<byte>, k: int)
    requires Whole(a)
    ensures 0 <= k ==> (Mark(a + b, |a| + k) <==> Mark(b, k))
    ensures k <= |a| ==> (Mark(a + b, k) <==> Mark(a, k))
    decreases |a|
  {
    hide OpLength;
    if a == [] {
      assert a + b == b;
      if k < 0 && Mark(b, k) { MarkBounds(b, k); }
    } else {
      var n := OpLength(a[0]);
      MarkBounds(a[n..], |a| - n);
      assert (a + b)[n..] == a[n..] + b;
      MarkJoin(a[n..], b, k);
      MarkJoin(a[n..], b, k - n);
    }
  }

  lemma WholeJoin(a: seq<byte>, b: seq<byte>)
    requires Whole(a) && Whole(b)
    ensures Whole(a + b)
  {
    MarkJoin(a, b, |b|);
  }

  /** A piece behind a whole piece keeps its marks, whatever follows. */
  lemma MarkInside(pre: seq<byte>, b: seq<byte>, post: seq<byte>, k: int)
    requires Whole(pre) && Whole(b) && 0 <= k <= |b|
    ensures Mark(pre + (b + post), |pre| + k) <==> Mark(b, k)
  {
    MarkJoin(pre, b + post, k);
    MarkJoin(b, post, k);
  }

  /** What is sound in a piece is sound where the piece stands. */
  lemma SoundInside(pre: seq<byte>, b: seq<byte>, post: seq<byte>)
    requires Whole(pre) && Closed(b)
    ensures SoundFrom(pre + (b + post), |pre|, |pre| + |b|)
  {
    hide Mark;
    var c := pre + (b + post);
    forall p | |pre| <= p < |pre| + |b| && Mark(c, p)
      ensures Sound(c, p)
    {
      var q := p - |pre|;
      MarkInside(pre, b, post, q);
      assert Sound(b, q);
      assert forall i :: 0 <= i < |b| ==> c[|pre| + i] == b[i];
      if b[q] == PC {
        MarkInside(pre, b, post, Target(b, q));
      }
      if b[q] == JMP {
        MarkInside(pre, b, post, q - 5);
      }
    }
  }

  lemma ClosedJoin(a: seq<byte>, b: seq<byte>)
    requires Closed(a) && Closed(b)
    ensures Closed(a + b)
  {
    hide Mark, Sound;
    WholeJoin(a, b);
    assert [] + (a + b) == a + b && b + [] == b;
    assert Whole([]) by { EmptyWhole(); }
    SoundInside([], a, b);
    SoundInside(a, b, []);
  }

  lemma EmptyWhole()
    ensures Closed([])
  {
  }

  // ------------------------------------------------------------------- pieces

  /** Opcodes without operands that are neither jump nor placeholder */
  predicate Plain(op: byte) { OpLength(op) == 1 && op != PC && op != JMP && op != TRAP }

  lemma ClosedOne(op: byte)
    requires Plain(op)
    ensures Closed([op])
  {
    forall p | 0 <= p < 1 && Mark([op], p)
      ensures Sound([op], p)
    {
    }
    assert [op][1..] == [];
  }

  lemma ClosedTwo(op: byte, x: byte)
    requires op == I8 || op == PUTC
    ensures Closed([op, x])
  {
    var b := [op, x];
    assert b[2..] == [];
    forall p | 0 <= p < 2 && Mark(b, p)
      ensures Sound(b, p)
    {
      if p == 1 { MarkBounds(b[2..], -1); }
    }
  }

  lemma ClosedImmediate(op: byte, b: seq<byte>)
    requires (op == I16 && |b| == 3) || (op == I32 && |b| == 5)
    requires b[0] == op
    ensures Closed(b)
  {
    assert b[|b|..] == [];
    forall p | 0 <= p < |b| && Mark(b, p)
      ensures Sound(b, p)
    {
      if p > 0 { MarkBounds(b[|b|..], p - |b|); }
    }
  }

  lemma ClosedNat(i: nat)
    ensures Closed(NatCode(i))
  {
    hide Closed, Hi, Lo;
    if i > 65535 {
      ClosedImmediate(I32, NatCode(i));
    } else if i > 255 {
      ClosedImmediate(I16, NatCode(i));
    } else if i == 0 {
      ClosedOne(ZERO);
    } else if i == 1 {
      ClosedOne(ONE);
    } else if i == 2 {
      ClosedOne(TWO);
    } else {
      ClosedTwo(I8, i);
    }
  }

  lemma ClosedInt(i: int)
    ensures Closed(IntCode(i))
  {
    hide Closed, NatCode;
    if i < 0 {
      ClosedNat(-i);
      ClosedOne(NEG);
      ClosedJoin(NatCode(-i), [NEG]);
    } else {
      ClosedNat(i);
    }
  }

  /** A jump is whole: its opcodes start at 0, 1, 4 and 5. */
  lemma JumpMarks(d: int, k: int)
    ensures Whole(JumpCode(d))
    ensures 0 <= k < 6 ==> (Mark(JumpCode(d), k) <==> k == 0 || k == 1 || k == 4 || k == 5)
  {
    hide Hi, Lo, Mark;
    var b0 := JumpCode(d);
    var b1 := b0[1..];
    var b2 := b1[3..];
    var b3 := b2[1..];
    var b4 := b3[1..];
    assert b1[0] == I16 && |b2| == 2 && (b2[0] == ADD || b2[0] == SUB) && b3 == [JMP] && b4 == [];
    MarkNext(b0, k);
    MarkNext(b1, k - 1);
    MarkNext(b2, k - 4);
    MarkNext(b3, k - 5);
    MarkNext(b4, k - 6);
    MarkNext(b0, 6);
    MarkNext(b1, 5);
    MarkNext(b2, 2);
    MarkNext(b3, 1);
    MarkNext(b4, 0);
  }

  lemma MarkNext(b: seq<byte>, k: int)
    ensures b == [] ==> (Mark(b, k) <==> k == 0)
    ensures b != [] && OpLength(b[0]) <= |b| ==> (Mark(b, k) <==> k == 0 || Mark(b[OpLength(b[0])..], k - OpLength(b[0])))
  {
  }

  /** A jump to a mark is sound. */
  lemma JumpSound(pre: seq<byte>, d: int, post: seq<byte>)
    requires Whole(pre) && -65536 < d < 65536
    requires var c := pre + (JumpCode(d) + post); 0 <= |pre| + d <= |c| && Mark(c, |pre| + d)
    ensures SoundFrom(pre + (JumpCode(d) + post), |pre|, |pre| + 6)
  {
    hide Mark, JumpCode, Sound, Target, JumpAt, Whole;
    var c := pre + (JumpCode(d) + post);
    JumpIsAt(pre, d, post);
    forall p | |pre| <= p < |pre| + 6 && Mark(c, p)
      ensures Sound(c, p)
    {
      JumpMarksIn(pre, d, post, p);
      SoundInJump(c, |pre|, p);
    }
  }

  lemma JumpIsAt(pre: seq<byte>, d: int, post: seq<byte>)
    requires Whole(pre) && -65536 < d < 65536
    requires var c := pre + (JumpCode(d) + post); 0 <= |pre| + d <= |c| && Mark(c, |pre| + d)
    ensures JumpAt(pre + (JumpCode(d) + post), |pre|) && Mark(pre + (JumpCode(d) + post), |pre|)
  {
    hide Mark, JumpCode, Target, Whole;
    JumpPlaced(pre, d, post);
    JumpMarksIn(pre, d, post, |pre|);
  }

  lemma JumpMarksIn(pre: seq<byte>, d: int, post: seq<byte>, p: nat)
    requires Whole(pre) && |pre| <= p < |pre| + 6
    ensures Mark(pre + (JumpCode(d) + post), p) <==> p == |pre| || p == |pre| + 1 || p == |pre| + 4 || p == |pre| + 5
  {
    hide Mark, JumpCode;
    JumpMarks(d, p - |pre|);
    MarkInside(pre, JumpCode(d), post, p - |pre|);
  }

  lemma SoundInJump(c: seq<byte>, at: nat, p: nat)
    requires JumpAt(c, at) && Mark(c, at) && (p == at || p == at + 1 || p == at + 4 || p == at + 5)
    ensures Sound(c, p)
  {
    hide Mark, Target;
  }

  lemma JumpPlaced(pre: seq<byte>, d: int, post: seq<byte>)
    requires -65536 < d < 65536
    ensures var c, p := pre + (JumpCode(d) + post), |pre|;
      && c[p] == PC && c[p + 1] == I16 && (c[p + 4] == ADD || c[p + 4] == SUB) && c[p + 5] == JMP
      && Target(c, p) == p + d
  {
    hide Hi, Lo;
    var j := JumpCode(d);
    var c := pre + (j + post);
    assert forall i :: 0 <= i < 6 ==> c[|pre| + i] == j[i];
    JumpOffset(d);
  }

  lemma JumpOffset(d: int)
    requires -65536 < d < 65536
    ensures var j := JumpCode(d); d == if j[4] == ADD then Join(j[2], j[3]) else -Join(j[2], j[3])
  {
  }

  // ---------------------------------------------------------------- the parts

  lemma ClosedConv(item: Item)
    requires item.Conv?
    ensures Closed(ConvCode(item))
  {
    hide Closed, IntCode, Plain;
    match KindOf(item)
    case Hex2 => ClosedSingle(XBYTE2);
    case Print1 => ClosedSingle(PBYTE);
    case Addr7Kind => ClosedSingle(XADDR7);
    case Addr8Kind => ClosedSingle(XADDR8);
    case General =>
      ClosedSingle(CONV);
      ClosedSingle(READ);
      ClosedInt(ReadBytes(item));
      ClosedInt(item.flags);
      ClosedInt(item.width);
      ClosedInt(item.prec);
      ClosedInt(item.fc);
      var c4 := IntCode(item.fc) + [CONV];
      ClosedJoin(IntCode(item.fc), [CONV]);
      var c3 := IntCode(item.prec) + c4;
      ClosedJoin(IntCode(item.prec), c4);
      var c2 := IntCode(item.width) + c3;
      ClosedJoin(IntCode(item.width), c3);
      var c1 := IntCode(item.flags) + c2;
      ClosedJoin(IntCode(item.flags), c2);
      ClosedJoin([READ], c1);
      ClosedJoin(IntCode(ReadBytes(item)), [READ] + c1);
  }

  lemma ClosedSingle(op: byte)
    requires op == XBYTE2 || op == PBYTE || op == XADDR7 || op == XADDR8 || op == CONV || op == READ || op == POP || op == TRUE
      || op == DUP || op == ONE || op == ADD || op == SWAP || op == SUB || op == NOT || op == COUNT || op == LT || op == OR || op == PAD
      || op == ZERO || op == CHOP || op == RESET || op == HALT
    ensures Closed([op])
  {
    hide Closed;
    ClosedOne(op);
  }

  /** A forward jump over a closed piece is closed with it. */
  lemma JumpOver(front: seq<byte>, b: seq<byte>)
    requires Closed(front) && Closed(b) && |b| < 60000
    ensures Closed(front + (JumpCode(6 + |b|) + b))
  {
    hide Mark, Sound, JumpCode;
    var j := JumpCode(6 + |b|);
    var c := front + (j + b);
    JumpMarks(6 + |b|, 0);
    WholeJoin(j, b);
    WholeJoin(front, j + b);
    EmptyWhole();
    assert [] + (front + (j + b)) == c;
    SoundInside([], front, j + b);
    JumpSound(front, 6 + |b|, b);
    WholeJoin(front, j);
    assert (front + j) + (b + []) == c;
    SoundInside(front + j, b, []);
  }

  lemma ClosedItem(item: Item)
    requires |ItemCode(item)| < 60000
    ensures Closed(ItemCode(item))
  {
    hide Closed, ConvCode, IntCode, JumpCode;
    match item
    case Lit(ch) => ClosedLit(ch);
    case Conv(_, width, _, _, bytes) =>
      var core := ConvCode(item);
      ClosedConv(item);
      if bytes <= 0 {
        assert [] + core == core;
      } else if width > 0 {
        ClosedPadded(width, core);
        PaddedParts(width, core);
      } else {
        ClosedUnpadded(core);
      }
  }

  lemma PaddedParts(width: int, core: seq<byte>)
    ensures var pad := IntCode(width) + [PAD, TRUE];
      var j, k := JumpCode(6 + |pad| + 6), JumpCode(6 + |core|);
      ([COUNT] + (j + (pad + k))) + core == [COUNT] + (j + (pad + (k + core)))
  {
    hide IntCode, JumpCode;
  }

  lemma ClosedUnpadded(core: seq<byte>)
    requires Closed(core) && |core| < 60000
    ensures Closed(([COUNT, NOT] + JumpCode(6 + |core|)) + core)
  {
    hide Closed, JumpCode;
    ClosedSingle(COUNT);
    ClosedSingle(NOT);
    ClosedJoin([COUNT], [NOT]);
    assert [COUNT] + [NOT] == [COUNT, NOT];
    JumpOver([COUNT, NOT], core);
    assert ([COUNT, NOT] + JumpCode(6 + |core|)) + core == [COUNT, NOT] + (JumpCode(6 + |core|) + core);
  }

  lemma ClosedLit(ch: byte)
    ensures Closed([PUTC, ch])
  {
    hide Closed;
    ClosedTwo(PUTC, ch);
  }

  /** OP_COUNT, a jump to the conversion, the padding, a jump over the conversion, the conversion */
  lemma ClosedPadded(width: int, core: seq<byte>)
    requires Closed(core) && |core| < 60000
    ensures var pad := IntCode(width) + [PAD, TRUE];
      Closed([COUNT] + (JumpCode(6 + |pad| + 6) + (pad + (JumpCode(6 + |core|) + core))))
  {
    hide Mark, Sound, JumpCode, IntCode;
    ClosedSingle(COUNT);
    ClosedSingle(PAD);
    ClosedSingle(TRUE);
    ClosedInt(width);
    ClosedJoin([PAD], [TRUE]);
    assert [PAD] + [TRUE] == [PAD, TRUE];
    ClosedJoin(IntCode(width), [PAD, TRUE]);
    var pad := IntCode(width) + [PAD, TRUE];
    var d := 6 + |pad| + 6;
    assert |pad| <= 8 by { IntSize(width); }
    var j := JumpCode(d);
    JumpOver(pad, core);
    var tail := pad + (JumpCode(6 + |core|) + core);
    JumpMarks(d, 0);
    JumpMarks(6 + |core|, 0);
    var c := [COUNT] + (j + tail);
    WholeJoin(j, tail);
    WholeJoin([COUNT], j + tail);
    // the first jump goes to the start of the conversion
    var front := [COUNT] + (j + (pad + JumpCode(6 + |core|)));
    WholeJoin(pad, JumpCode(6 + |core|));
    WholeJoin(j, pad + JumpCode(6 + |core|));
    WholeJoin([COUNT], j + (pad + JumpCode(6 + |core|)));
    assert front + core == c;
    MarkJoin(front, core, 0);
    StartMark(core);
    JumpSound([COUNT], d, tail);
    EmptyWhole();
    assert [] + ([COUNT] + (j + tail)) == c;
    SoundInside([], [COUNT], j + tail);
    WholeJoin([COUNT], j);
    assert ([COUNT] + j) + (tail + []) == c;
    SoundInside([COUNT] + j, tail, []);
  }

  lemma StartMark(b: seq<byte>)
    ensures Mark(b, 0)
  {
  }

  lemma IntSize(i: int)
    ensures |IntCode(i)| <= 6
  {
  }

  lemma {:induction false} ClosedItems(items: seq<Item>)
    requires |ItemsCode(items)| < 60000
    ensures Closed(ItemsCode(items))
    decreases items
  {
    hide Closed, ItemCode;
    if items == [] {
      EmptyWhole();
    } else {
      ClosedItems(items[..|items| - 1]);
      ClosedItem(items[|items| - 1]);
      ClosedJoin(ItemsCode(items[..|items| - 1]), ItemCode(items[|items| - 1]));
    }
  }

  lemma ClosedTest(u: Unit)
    ensures Closed(TestCode(u))
  {
    hide Closed, IntCode;
    ClosedSingle(DUP);
    ClosedInt(u.loop);
    ClosedSingle(SWAP);
    ClosedSingle(SUB);
    ClosedSingle(NOT);
    ClosedJoin([SUB], [NOT]);
    ClosedJoin([SWAP], [SUB] + [NOT]);
    assert [SWAP] + ([SUB] + [NOT]) == [SWAP, SUB, NOT];
    var more := if u.nopad then [COUNT, I8, ToByte(Consumes(u)), LT, OR] else [];
    if u.nopad {
      ClosedSingle(COUNT);
      ClosedCount(ToByte(Consumes(u)));
      ClosedSingle(LT);
      ClosedSingle(OR);
      ClosedJoin([LT], [OR]);
      ClosedJoin([I8, ToByte(Consumes(u))], [LT] + [OR]);
      ClosedJoin([COUNT], [I8, ToByte(Consumes(u))] + ([LT] + [OR]));
      assert [COUNT] + ([I8, ToByte(Consumes(u))] + ([LT] + [OR])) == more;
    } else {
      EmptyWhole();
    }
    ClosedJoin([SWAP, SUB, NOT], more);
    ClosedJoin(IntCode(u.loop), [SWAP, SUB, NOT] + more);
    ClosedJoin([DUP], IntCode(u.loop) + ([SWAP, SUB, NOT] + more));
  }

  lemma ClosedCount(n: byte)
    ensures Closed([I8, n])
  {
    hide Closed;
    ClosedTwo(I8, n);
  }

  lemma ClosedBody(u: Unit)
    requires |ItemsCode(u.items)| < 60000
    ensures Closed(BodyCode(u))
  {
    hide Closed, IntCode, ItemsCode;
    ClosedSingle(ONE);
    ClosedSingle(ADD);
    ClosedSingle(TRUE);
    ClosedSingle(READ);
    ClosedSingle(POP);
    EmptyWhole();
    ClosedInt(u.skip);
    ClosedJoin([READ], [POP]);
    assert [READ] + [POP] == [READ, POP];
    ClosedJoin(IntCode(u.skip), [READ, POP]);
    assert Closed(SkipCode(u));
    ClosedJoin(SkipCode(u), [TRUE]);
    ClosedItems(u.items);
    ClosedJoin(ItemsCode(u.items), SkipCode(u) + [TRUE]);
    ClosedJoin([ONE], [ADD]);
    assert [ONE] + [ADD] == [ONE, ADD];
    ClosedJoin([ONE, ADD], ItemsCode(u.items) + (SkipCode(u) + [TRUE]));
  }

  /** The loop of a unit: the exit jump goes to its end, the jump back to its start. */
  lemma ClosedLoop(test: seq<byte>, body: seq<byte>)
    requires Closed(test) && Closed(body) && |test| + |body| < 50000
    ensures Closed(test + (JumpCode(6 + |body| + 6) + (body + JumpCode(-(|test| + 6 + |body|)))))
  {
    hide Mark, Sound, JumpCode;
    var d, e := 6 + |body| + 6, -(|test| + 6 + |body|);
    var j, k := JumpCode(d), JumpCode(e);
    var tail := body + k;
    var c := test + (j + tail);
    JumpMarks(d, 0);
    JumpMarks(e, 0);
    WholeJoin(body, k);
    WholeJoin(j, tail);
    WholeJoin(test, j + tail);
    EmptyWhole();
    assert [] + (test + (j + tail)) == c;
    SoundInside([], test, j + tail);
    JumpSound(test, d, tail);
    WholeJoin(test, j);
    assert (test + j) + (body + k) == c;
    SoundInside(test + j, body, k);
    WholeJoin(test + j, body);
    assert (test + j + body) + (k + []) == c;
    StartMark(c);
    JumpSound(test + j + body, e, []);
  }

  lemma UnitSizes(u: Unit)
    ensures |ItemsCode(u.items)| <= |BodyCode(u)|
    ensures |TestCode(u)| + |BodyCode(u)| <= |UnitCode(u)|
  {
  }

  lemma ClosedUnit(u: Unit)
    requires |UnitCode(u)| < 50000
    ensures Closed(UnitCode(u))
  {
    UnitSizes(u);
    hide Closed, IntCode, TestCode, BodyCode, JumpCode, ItemsCode;
    ClosedTest(u);
    ClosedBody(u);
    ClosedLoop(TestCode(u), BodyCode(u));
    ClosedSingle(ZERO);
    ClosedSingle(POP);
    ClosedSingle(CHOP);
    EmptyWhole();
    ClosedInt(u.chop);
    ClosedJoin(IntCode(u.chop), [CHOP]);
    assert Closed(ChopCode(u));
    ClosedJoin([POP], ChopCode(u));
    ClosedJoin(LoopCode(u), [POP] + ChopCode(u));
    ClosedJoin([ZERO], LoopCode(u) + ([POP] + ChopCode(u)));
  }

  lemma {:induction false} ClosedUnits(line: Line)
    requires |UnitsCode(line)| < 50000
    ensures Closed(UnitsCode(line))
    decreases line
  {
    hide Closed, UnitCode;
    if line == [] {
      EmptyWhole();
    } else {
      ClosedUnits(line[..|line| - 1]);
      ClosedUnit(line[|line| - 1]);
      ClosedJoin(UnitsCode(line[..|line| - 1]), UnitCode(line[|line| - 1]));
    }
  }

  lemma {:induction false} ClosedLines(prog: Program)
    requires |LinesCode(prog)| < 50000
    ensures Closed(LinesCode(prog))
    decreases prog
  {
    hide Closed, UnitsCode;
    if prog == [] {
      EmptyWhole();
    } else {
      var last := UnitsCode(prog[|prog| - 1]);
      ClosedLines(prog[..|prog| - 1]);
      ClosedUnits(prog[|prog| - 1]);
      ClosedSingle(RESET);
      ClosedJoin([RESET], last);
      ClosedJoin(LinesCode(prog[..|prog| - 1]), [RESET] + last);
    }
  }

  /** In the code of every format the opcodes follow one another up to OP_HALT; none of them is
      the placeholder OP_TRAP; and every jump goes to one of them or to OP_HALT. */
  lemma JumpsLand(prog: Program)
    requires |LinesCode(prog)| < CODE_SIZE
    ensures var code, end := Image(prog), |LinesCode(prog)|;
      && Mark(code, end) && code[end] == HALT
      && SoundFrom(code, 0, end)
      && forall p :: 0 <= p < end && Mark(code, p) && code[p] == PC ==> p + 6 <= end && 0 <= Target(code, p) <= end
  {
    hide Mark, Sound, Target, LinesCode;
    var lines := LinesCode(prog);
    var rest := [HALT] + seq(CODE_SIZE - 1 - |lines|, _ => TRAP);
    var code := Image(prog);
    assert code == lines + rest && [] + (lines + rest) == code;
    ClosedLines(prog);
    EmptyWhole();
    SoundInside([], lines, rest);
    MarkJoin(lines, rest, 0);
    StartMark(rest);
    forall p | 0 <= p < |lines| && Mark(code, p) && code[p] == PC
      ensures p + 6 <= |lines| && 0 <= Target(code, p) <= |lines|
    {
      MarkJoin(lines, rest, p);
      SameTarget(lines, rest, p);
    }
  }

  lemma SameTarget(lines: seq<byte>, rest: seq<byte>, p: nat)
    requires p < |lines| && lines[p] == PC && Sound(lines, p)
    ensures p + 6 <= |lines| && Target(lines + rest, p) == Target(lines, p) && 0 <= Target(lines, p) <= |lines|
  {
    hide Mark;
  }
}
