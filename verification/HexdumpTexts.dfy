/** Formats as people write them: units without counts, and counts with a blank behind them. */
module HexdumpTexts {
  import opened Arithmetic

  import opened HexdumpMachine
  import opened HexdumpFormat
  import opened HexdumpParser
  import opened HexdumpRender
  import opened HexdumpRows

  /** The texts with a separator between them */
  function Joined(texts: seq<seq<byte>>, sep: byte): seq<byte> {
    if texts == [] then [] else if |texts| == 1 then texts[0] else texts[0] + ([sep] + Joined(texts[1..], sep))
  }

  /** The text of a unit stands at i. */
  ghost predicate UnitAt(fmt: CString, i: nat, text: seq<byte>) {
    At(fmt, i, text) && EndsUnit(Ch(fmt, i + |text|))
  }

  predicate ParsesAs(fmt: CString, i: nat, nopad: bool, u: Unit, j: nat) {
    i <= |fmt| && ParseHead(fmt, i, nopad).nopad == u.nopad && ParseUnit(fmt, ParseHead(fmt, i, nopad)) == Parsed(u, j)
  }

  /** Wherever the text stands, it is read as the unit. */
  ghost predicate ReadsAs(text: seq<byte>, u: Unit, nopad: bool) {
    && text != [] && 0 !in text && !IsSpace(text[0], true)
    && forall fmt: CString, i: nat :: UnitAt(fmt, i, text) ==> ParsesAs(fmt, i, nopad, u, i + |text|)
  }

  ghost predicate ReadsLine(texts: seq<seq<byte>>, line: Line, nopad: bool) {
    && |texts| == |line|
    && (line != [] ==> ReadsAs(texts[0], line[0], nopad) && ReadsLine(texts[1..], line[1..], line[0].nopad))
  }

  // ------------------------------------------------------------------- a unit

  function CountText(loop: nat, limit: nat, mark: bool): (t: seq<byte>)
    ensures t != [] && 0 !in t
  {
    NumeralOf(loop) + (LimitText(limit, mark) + [BLANK])
  }

  lemma CountStarts(loop: nat, limit: nat, mark: bool)
    ensures IsDigit(CountText(loop, limit, mark)[0])
  {
    NumeralIs(loop);
  }

  lemma NoCount(fmt: CString, i: nat, nopad: bool)
    requires i < |fmt| && Ch(fmt, i) == QUOTE
    ensures ParseHead(fmt, i, nopad) == Head(1, -1, nopad, i)
  {
    hide SkipWs;
    NotBlank(fmt, i, false);
  }

  lemma CountParts(fmt: CString, i: nat, loop: nat, limit: nat, mark: bool, more: seq<byte>)
    requires At(fmt, i, CountText(loop, limit, mark) + more)
    ensures var k := i + |NumeralOf(loop)|;
      var m := k + |LimitText(limit, mark)|;
      && At(fmt, i, NumeralOf(loop) + LimitText(limit, mark)) && Ch(fmt, k) == SLASH && At(fmt, k, LimitText(limit, mark))
      && m < |fmt| && Ch(fmt, m) == BLANK && fmt[m] == BLANK && At(fmt, m + 1, more) && m + 1 == i + |CountText(loop, limit, mark)|
  {
    hide NumeralOf;
    var a, b := NumeralOf(loop), LimitText(limit, mark);
    assert CountText(loop, limit, mark) + more == (a + b) + ([BLANK] + more) == a + (b + ([BLANK] + more));
    AtParts(fmt, i, a + b, [BLANK] + more);
    AtParts(fmt, i, a, b + ([BLANK] + more));
    AtParts(fmt, i + |a|, b, [BLANK] + more);
    AtFirst(fmt, i + |a|, b);
    AtParts(fmt, i + |a| + |b|, [BLANK], more);
    AtFirst(fmt, i + |a| + |b|, [BLANK]);
  }

  /** The counts of a unit, with a blank behind them */
  lemma CountReads(fmt: CString, i: nat, loop: nat, limit: nat, mark: bool, nopad: bool, more: seq<byte>)
    requires loop <= MAX_NUMBER && limit <= MAX_NUMBER && more != [] && more[0] == QUOTE && (nopad ==> !mark)
    requires At(fmt, i, CountText(loop, limit, mark) + more)
    ensures var n := i + |CountText(loop, limit, mark)|;
      At(fmt, n, more) && n < |fmt| && ParseHead(fmt, i, nopad) == Head(loop, limit, nopad || mark, n)
  {
    hide NumeralOf, LimitText, CountText, GetInt, SkipWs, At, Ch;
    CountParts(fmt, i, loop, limit, mark, more);
    var k := i + |NumeralOf(loop)|;
    var m := k + |LimitText(limit, mark)|;
    LimitParts(fmt, k, limit, mark);
    LoopReadsBack(fmt, i, loop, LimitText(limit, mark));
    AtFirst(fmt, m + 1, more);
    SkipOne(fmt, m, false);
  }

  predicate Plain(text: seq<byte>) { forall i :: 0 <= i < |text| ==> LitText(text[i]) == [text[i]] }

  lemma {:induction false} TextJoin(a: seq<Item>, b: seq<Item>)
    requires forall k :: 0 <= k < |a + b| ==> Spelled((a + b)[k])
    ensures (forall k :: 0 <= k < |a| ==> Spelled(a[k])) && (forall k :: 0 <= k < |b| ==> Spelled(b[k]))
    ensures ItemsText(a + b) == ItemsText(a) + ItemsText(b)
    decreases |a|
  {
    hide Spelled, ItemText;
    assert forall k :: 0 <= k < |a| ==> a[k] == (a + b)[k];
    assert forall k :: 0 <= k < |b| ==> b[k] == (a + b)[|a| + k];
    if a == [] {
      assert a + b == b;
      assert ItemsText(a) + ItemsText(b) == ItemsText(b);
    } else {
      assert (a + b)[1..] == a[1..] + b;
      TextJoin(a[1..], b);
      assert ItemText(a[0]) + (ItemsText(a[1..]) + ItemsText(b)) == ItemsText(a) + ItemsText(b);
    }
  }

  lemma {:induction false} PlainText(text: seq<byte>)
    requires Plain(text)
    ensures (forall k :: 0 <= k < |text| ==> Spelled(Lits(text)[k])) && ItemsText(Lits(text)) == text
    decreases |text|
  {
    hide LitText;
    if text != [] {
      assert Lits(text)[1..] == Lits(text[1..]);
      PlainText(text[1..]);
      assert text == [text[0]] + text[1..];
    }
  }

  lemma AroundText(lead: seq<byte>, item: Item, tail: seq<byte>)
    requires Plain(lead) && Plain(tail) && Spelled(item)
    ensures (forall k :: 0 <= k < |Around(lead, item, tail)| ==> Spelled(Around(lead, item, tail)[k]))
    ensures ItemsText(Around(lead, item, tail)) == lead + (ItemText(item) + tail)
  {
    hide Spelled, ItemText, Lits, Plain, ItemsText;
    PlainText(lead);
    PlainText(tail);
    TextJoin(Lits(lead), [item] + Lits(tail));
    TextJoin([item], Lits(tail));
    OneText(item);
  }

  lemma OneText(item: Item)
    requires Spelled(item)
    ensures ItemsText([item]) == ItemText(item)
  {
    hide Spelled, ItemText;
    assert [item][1..] == [];
    assert ItemText(item) + [] == ItemText(item);
  }

  lemma {:induction false} LitsReadNothing(text: seq<byte>)
    ensures ItemsBytes(Lits(text)) == 0
    decreases |text|
  {
    if text != [] {
      assert Lits(text)[..|text| - 1] == Lits(text[..|text| - 1]);
      LitsReadNothing(text[..|text| - 1]);
    }
  }

  lemma {:induction false} BytesJoin(a: seq<Item>, b: seq<Item>)
    ensures ItemsBytes(a + b) == ItemsBytes(a) + ItemsBytes(b)
    decreases |b|
  {
    hide ItemBytes;
    if b == [] {
      assert a + b == a;
    } else {
      assert (a + b)[..|a + b| - 1] == a + b[..|b| - 1];
      BytesJoin(a, b[..|b| - 1]);
    }
  }

  lemma AroundReads(lead: seq<byte>, item: Item, tail: seq<byte>, limit: int)
    requires CutItem(limit, 0, item)
    ensures CutRight(limit, Around(lead, item, tail)) && ItemsBytes(Around(lead, item, tail)) == ItemBytes(item)
  {
    hide CutBytes, Natural, ItemBytes;
    var items := Around(lead, item, tail);
    LitsReadNothing(lead);
    LitsReadNothing(tail);
    BytesJoin(Lits(lead), [item] + Lits(tail));
    BytesJoin([item], Lits(tail));
    OneRead(item);
    hide ItemsBytes;
    forall k | 0 <= k < |items| && items[k].Conv?
      ensures k == |lead| && items[..k] == Lits(lead)
    {
    }
    assert items[|lead|] == item;
  }

  lemma OneRead(item: Item)
    ensures ItemsBytes([item]) == ItemBytes(item)
  {
    assert [item][..0] == [];
    assert ItemsBytes([]) == 0;
  }

  /** Blanks at the end of literals */
  function BlankTail(text: seq<byte>): nat {
    if text == [] || !IsSpace(text[|text| - 1], false) then 0 else BlankTail(text[..|text| - 1]) + 1
  }

  lemma {:induction false} LitsBlanks(front: seq<Item>, text: seq<byte>)
    requires Blanks(front) == 0
    ensures Blanks(front + Lits(text)) == BlankTail(text)
    decreases |text|
  {
    hide IsSpace;
    if text == [] {
      assert front + Lits(text) == front;
    } else {
      var n := |text| - 1;
      LitsBlanks(front, text[..n]);
      assert front + Lits(text) == (front + Lits(text[..n])) + [Lit(text[n])];
      BlanksMore(front + Lits(text[..n]), Lit(text[n]));
    }
  }

  lemma AroundBlanks(lead: seq<byte>, item: Item, tail: seq<byte>)
    requires item.Conv?
    ensures Blanks(Around(lead, item, tail)) == BlankTail(tail)
  {
    hide Blanks, BlankTail, Lits;
    BlanksMore(Lits(lead), item);
    LitsBlanks(Lits(lead) + [item], tail);
    assert Around(lead, item, tail) == (Lits(lead) + [item]) + Lits(tail);
  }

  lemma QuotedParses(fmt: CString, head: Head, items: seq<Item>)
    requires (forall k :: 0 <= k < |items| ==> Spelled(items[k])) && CutRight(head.limit, items) && 0 <= ItemsBytes(items)
    requires At(fmt, head.next, QuotedText(items)) && EndsUnit(Ch(fmt, head.next + |QuotedText(items)|))
    requires head.limit <= ItemsBytes(items) <= 255
    ensures head.next <= |fmt|
    ensures ParseUnit(fmt, head) == Parsed(Unit(head.loop, head.nopad, items, 0, Blanks(items)), head.next + |QuotedText(items)|)
  {
    hide QuotedText, Spelled, At, CutRight, ScanAll, Blanks, ItemsBytes;
    QuotedReadsBack(fmt, head.next, head.limit, items);
  }

  /** A unit without counts */
  lemma BareReads(items: seq<Item>, nopad: bool)
    requires (forall k :: 0 <= k < |items| ==> Spelled(items[k])) && CutRight(-1, items) && 0 <= ItemsBytes(items) <= 255
    ensures ReadsAs(QuotedText(items), Unit(1, nopad, items, 0, Blanks(items)), nopad)
  {
    hide Spelled, CutRight, Blanks, ItemsBytes, QuotedText, UnitAt, ParsesAs;
    var text := QuotedText(items);
    QuotedStarts(items);
    forall fmt: CString, i: nat | UnitAt(fmt, i, text)
      ensures ParsesAs(fmt, i, nopad, Unit(1, nopad, items, 0, Blanks(items)), i + |text|)
    {
      BareAt(fmt, i, nopad, items);
    }
  }

  lemma QuotedStarts(items: seq<Item>)
    requires forall k :: 0 <= k < |items| ==> Spelled(items[k])
    ensures QuotedText(items) != [] && QuotedText(items)[0] == QUOTE && !IsSpace(QUOTE, true)
  {
    hide Spelled, ItemsText;
  }

  lemma BareAt(fmt: CString, i: nat, nopad: bool, items: seq<Item>)
    requires (forall k :: 0 <= k < |items| ==> Spelled(items[k])) && CutRight(-1, items) && 0 <= ItemsBytes(items) <= 255
    requires UnitAt(fmt, i, QuotedText(items))
    ensures ParsesAs(fmt, i, nopad, Unit(1, nopad, items, 0, Blanks(items)), i + |QuotedText(items)|)
  {
    hide Spelled, CutRight, Blanks, ItemsBytes, At, ItemsText, ParseUnit, ParseHead, EndsUnit;
    AtFirst(fmt, i, QuotedText(items));
    NoCount(fmt, i, nopad);
    QuotedParses(fmt, Head(1, -1, nopad, i), items);
  }

  lemma CountedAt(fmt: CString, i: nat, loop: nat, limit: nat, mark: bool, items: seq<Item>)
    requires (forall k :: 0 <= k < |items| ==> Spelled(items[k])) && CutRight(limit, items)
    requires loop <= MAX_NUMBER && limit == ItemsBytes(items) <= 255
    requires UnitAt(fmt, i, CountText(loop, limit, mark) + QuotedText(items))
    ensures ParsesAs(fmt, i, false, Unit(loop, mark, items, 0, Blanks(items)), i + |CountText(loop, limit, mark) + QuotedText(items)|)
  {
    hide Spelled, CutRight, Blanks, ItemsBytes, At, ItemsText, ParseUnit, ParseHead, CountText, EndsUnit;
    CountReads(fmt, i, loop, limit, mark, false, QuotedText(items));
    QuotedParses(fmt, Head(loop, limit, mark, i + |CountText(loop, limit, mark)|), items);
  }

  /** A unit with both counts, and the question mark or not */
  lemma CountedReads(loop: nat, limit: nat, mark: bool, items: seq<Item>)
    requires (forall k :: 0 <= k < |items| ==> Spelled(items[k])) && CutRight(limit, items)
    requires loop <= MAX_NUMBER && limit == ItemsBytes(items) <= 255
    ensures ReadsAs(CountText(loop, limit, mark) + QuotedText(items), Unit(loop, mark, items, 0, Blanks(items)), false)
  {
    hide Spelled, CutRight, Blanks, ItemsBytes, QuotedText, CountText, UnitAt, ParsesAs;
    var text := CountText(loop, limit, mark) + QuotedText(items);
    forall fmt: CString, i: nat | UnitAt(fmt, i, text)
      ensures ParsesAs(fmt, i, false, Unit(loop, mark, items, 0, Blanks(items)), i + |text|)
    {
      CountedAt(fmt, i, loop, limit, mark, items);
    }
    CountStarts(loop, limit, mark);
  }

  // ------------------------------------------------------------ lines and programs

  lemma UnitsOn(fmt: CString, i: nat, nopad: bool, units: Line, u: Unit, j: nat)
    requires i < |fmt| && !IsSpace(fmt[i], true) && j < |fmt| && ParsesAs(fmt, i, nopad, u, j)
    requires Ch(fmt, j) == BLANK && Ch(fmt, j + 1) != 0 && !IsSpace(Ch(fmt, j + 1), true)
    ensures j + 1 < |fmt| && !IsSpace(fmt[j + 1], true) && ParseUnits(fmt, i, nopad, units) == ParseUnits(fmt, j + 1, u.nopad, units + [u])
  {
    hide ParseUnit, ParseHead, SkipWs;
    SkipOne(fmt, j, false);
  }

  lemma {:induction false} LineHasNoNul(texts: seq<seq<byte>>, line: Line, nopad: bool, sep: byte)
    requires ReadsLine(texts, line, nopad) && sep != 0
    ensures 0 !in Joined(texts, sep)
    decreases |line|
  {
    hide ParsesAs, UnitAt;
    if line != [] { LineHasNoNul(texts[1..], line[1..], line[0].nopad, sep); }
  }

  lemma {:induction false} FormatHasNoNul(texts: seq<seq<seq<byte>>>, prog: Program)
    requires |texts| == |prog| && (forall k :: 0 <= k < |prog| ==> prog[k] != [] && ReadsLine(texts[k], prog[k], false))
    ensures 0 !in LinesText(texts)
    decreases |prog|
  {
    hide ReadsLine, Joined;
    if prog != [] {
      LineHasNoNul(texts[0], prog[0], false, BLANK);
      FormatHasNoNul(texts[1..], prog[1..]);
    }
  }

  lemma JoinedStarts(texts: seq<seq<byte>>, line: Line, nopad: bool, sep: byte)
    requires line != [] && ReadsLine(texts, line, nopad)
    ensures var t := Joined(texts, sep); t != [] && t[0] != 0 && !IsSpace(t[0], true)
  {
    hide IsSpace, ParsesAs, UnitAt;
  }

  lemma {:induction false} LineReads(fmt: CString, i: nat, texts: seq<seq<byte>>, line: Line, nopad: bool, units: Line)
    requires line != [] && ReadsLine(texts, line, nopad) && At(fmt, i, Joined(texts, BLANK))
    requires var c := Ch(fmt, i + |Joined(texts, BLANK)|); c == 0 || c == NEWLINE
    ensures i + |Joined(texts, BLANK)| <= |fmt| && i < |fmt| && !IsSpace(fmt[i], true)
    ensures ParseUnits(fmt, i, nopad, units) == Parsed(units + line, i + |Joined(texts, BLANK)|)
    decreases |line|
  {
    hide At, ParseUnit, ParseUnits, ParseHead, SkipWs, Ch, IsSpace;
    var u, t := line[0], texts[0];
    JoinedStarts(texts, line, nopad, BLANK);
    AtFirst(fmt, i, Joined(texts, BLANK));
    ChIs(fmt, i);
    if |line| == 1 {
      assert UnitAt(fmt, i, t);
      UnitsGo(fmt, i, nopad, units, u, i + |t|);
      assert units + [u] == units + line;
    } else {
      var rest := Joined(texts[1..], BLANK);
      assert ReadsLine(texts[1..], line[1..], u.nopad);
      Separated(fmt, i, t, BLANK, rest);
      JoinedStarts(texts[1..], line[1..], u.nopad, BLANK);
      AtFirst(fmt, i + |t| + 1, rest);
      assert UnitAt(fmt, i, t);
      UnitsOn(fmt, i, nopad, units, u, i + |t|);
      LineReads(fmt, i + |t| + 1, texts[1..], line[1..], u.nopad, units + [u]);
      assert units + [u] + line[1..] == units + line;
    }
  }

  lemma {:induction false} ProgramReads(fmt: CString, i: nat, texts: seq<seq<seq<byte>>>, prog: Program, lines: Program)
    requires |texts| == |prog| && (forall k :: 0 <= k < |prog| ==> prog[k] != [] && ReadsLine(texts[k], prog[k], false))
    requires At(fmt, i, LinesText(texts)) && i + |LinesText(texts)| == |fmt|
    ensures ParseLines(fmt, i, false, lines) == Parsed(lines + prog, |fmt|)
    decreases |prog|
  {
    hide At, ParseUnits, ParseLines, SkipWs, IsSpace, Ch, ReadsLine;
    LinesStop(fmt, false, lines + prog);
    if prog == [] {
      assert lines + prog == lines;
    } else {
      var line, t := prog[0], Joined(texts[0], BLANK);
      if |prog| > 1 { Separated(fmt, i, t, NEWLINE, LinesText(texts[1..])); }
      AtEndIsNul(fmt);
      var k := i + |t|;
      JoinedStarts(texts[0], line, false, BLANK);
      LineReads(fmt, i, texts[0], line, false, []);
      assert [] + line == line;
      LinesGo(fmt, i, false, lines, line, k);
      if |prog| == 1 {
        assert lines + [line] == lines + prog;
      } else {
        ProgramReads(fmt, k + 1, texts[1..], prog[1..], lines + [line]);
        assert lines + [line] + prog[1..] == lines + prog;
      }
    }
  }

  /** The units of each line with blanks between them, and a newline between the lines */
  function LinesText(texts: seq<seq<seq<byte>>>): seq<byte> {
    if texts == [] then []
    else if |texts| == 1 then Joined(texts[0], BLANK)
    else Joined(texts[0], BLANK) + ([NEWLINE] + LinesText(texts[1..]))
  }

  /** A whole format */
  lemma FormatReads(texts: seq<seq<seq<byte>>>, prog: Program)
    requires |texts| == |prog| && (forall k :: 0 <= k < |prog| ==> prog[k] != [] && ReadsLine(texts[k], prog[k], false))
    requires |LinesText(texts)| < 0x8000_0000
    ensures 0 !in LinesText(texts) && Parse(LinesText(texts), false) == Parsed(prog, |LinesText(texts)|)
  {
    hide ParseLines, ReadsLine, LinesText;
    FormatHasNoNul(texts, prog);
    var fmt: CString := LinesText(texts);
    assert At(fmt, 0, fmt);
    ProgramReads(fmt, 0, texts, prog, []);
    assert [] + prog == prog;
  }
}
