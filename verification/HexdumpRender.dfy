/** Format strings written out: every program the parser accepts is what some text parses to, and
    the text can be computed from the program. */
module HexdumpRender {
  import opened Arithmetic

  import opened HexdumpMachine
  import opened HexdumpFormat
  import opened HexdumpParser

  /** The largest number getint reads */
  const MAX_NUMBER := 2147483639

  // ------------------------------------------------------------------ the text

  function NumeralOf(n: nat): (t: seq<byte>)
    ensures t != [] && 0 !in t
  {
    if n < 10 then ['0' as int + n] else NumeralOf(n / 10) + ['0' as int + n % 10]
  }

  function FlagText(on: bool, c: byte): (t: seq<byte>)
    ensures c != 0 ==> 0 !in t
  {
    if on then [c] else []
  }

  /** The flags F_HASH, F_ZERO, F_MINUS, F_SPACE and F_PLUS, and how they are written */
  const FLAGS: seq<byte> := ['#' as int, '0' as int, '-' as int, ' ' as int, '+' as int]

  /** The flags from the k-th on */
  function FlagsText(flags: nat, k: nat): (t: seq<byte>)
    requires k <= 5
    ensures 0 !in t
    decreases 5 - k
  {
    if k == 5 then [] else FlagText(flags / Pow2(k) % 2 == 1, FLAGS[k]) + FlagsText(flags, k + 1)
  }

  /** The conversions vm_conv performs */
  predicate Known(fc: int) { AddressFc(fc) || LabelFc(fc) || IntFc(fc) || fc == FC1('c') || fc == FC1('s') }

  predicate AddressFc(fc: int) { fc == FC2('d') || fc == FC2('o') || fc == FC2('x') }

  predicate LabelFc(fc: int) { fc == FC2('c') || fc == FC2('p') || fc == FC2('u') }

  predicate IntFc(fc: int) {
    || fc == FC1('d') || fc == FC1('i') || fc == FC1('o')
    || fc == FC1('u') || fc == FC1('X') || fc == FC1('x')
  }

  function LetterText(fc: int): (t: seq<byte>)
    requires Known(fc)
    ensures t != [] && 0 !in t
  {
    if AddressFc(fc) then [UNDERSCORE, 'a' as int, fc / 256]
    else if LabelFc(fc) then [UNDERSCORE, fc / 256]
    else [fc]
  }

  /** What a conversion reads unless the byte count of its unit cuts it short */
  function Natural(fc: int, prec: int): int {
    if fc == FC1('c') || LabelFc(fc) then 1 else if IntFc(fc) then 4 else if fc == FC1('s') then prec else 0
  }

  /** A conversion as getcnv can have read it */
  predicate Spelled(item: Item) {
    item.Conv? ==>
      && Known(item.fc) && 0 <= item.flags < 32
      && (item.width == -1 || 1 <= item.width <= MAX_NUMBER) && -1 <= item.prec <= MAX_NUMBER
      && (item.fc == FC1('s') ==> item.prec >= 0)
  }

  function WidthText(width: int): (t: seq<byte>)
    ensures 0 !in t
  {
    if width > 0 then NumeralOf(width) else []
  }

  function PrecText(prec: int): (t: seq<byte>)
    ensures 0 !in t
  {
    if prec >= 0 then [DOT] + NumeralOf(prec) else []
  }

  /** What stands behind the percent sign */
  function ConvText(item: Item): (t: seq<byte>)
    requires item.Conv? && Spelled(item)
    ensures 0 !in t
  {
    FlagsText(item.flags, 0) + (WidthText(item.width) + (PrecText(item.prec) + LetterText(item.fc)))
  }

  /** The letters C writes alert, backspace, tab, newline, vertical tab, form feed and carriage return with */
  const ESCAPES: seq<byte> := ['a' as int, 'b' as int, 't' as int, 'n' as int, 'v' as int, 'f' as int, 'r' as int]

  function LitText(c: byte): (t: seq<byte>)
    ensures 0 !in t
  {
    if c == 0 then [BACKSLASH, '0' as int]
    else if 7 <= c <= 13 then [BACKSLASH, ESCAPES[c - 7]]
    else if c == PERCENT then [PERCENT, PERCENT]
    else if c == QUOTE || c == BACKSLASH then [BACKSLASH, c]
    else [c]
  }

  function ItemText(item: Item): (t: seq<byte>)
    requires Spelled(item)
    ensures 0 !in t
  {
    if item.Lit? then LitText(item.ch) else [PERCENT] + ConvText(item)
  }

  function ItemsText(items: seq<Item>): (t: seq<byte>)
    requires forall k :: 0 <= k < |items| ==> Spelled(items[k])
    ensures 0 !in t
  {
    if items == [] then [] else ItemText(items[0]) + ItemsText(items[1..])
  }

  /** Every conversion reads what it naturally reads, cut to what is left of limit bytes. */
  predicate CutRight(limit: int, items: seq<Item>) {
    forall k :: 0 <= k < |items| && items[k].Conv? ==>
      && items[k].bytes == CutBytes(limit, ItemsBytes(items[..k]), Natural(items[k].fc, items[k].prec))
      && (limit >= 0 && Natural(items[k].fc, items[k].prec) > 0 ==> items[k].bytes != 0)
  }

  /** The byte count a unit has to be written with: none if nothing is cut or skipped. */
  function Limit(u: Unit): int {
    if u.skip == 0 && CutRight(-1, u.items) then -1 else Consumes(u)
  }

  /** The blanks at the end */
  function Blanks(items: seq<Item>): nat {
    if items == [] then 0
    else
      var last := items[|items| - 1];
      if last.Lit? && IsSpace(last.ch, false) then Blanks(items[..|items| - 1]) + 1 else 0
  }

  predicate Writable(u: Unit) {
    && (forall k :: 0 <= k < |u.items| ==> Spelled(u.items[k]))
    && u.chop == Blanks(u.items) && CutRight(Limit(u), u.items)
    && u.loop <= MAX_NUMBER && -1 <= Limit(u) <= MAX_NUMBER
    && (u.loop == 0 ==> u.skip == 0) && (u.nopad ==> Consumes(u) <= 255)
  }

  function HeadText(u: Unit, mark: bool): (t: seq<byte>)
    ensures 0 !in t
  {
    NumeralOf(u.loop) + LimitText(Limit(u), mark)
  }

  function LimitText(limit: int, mark: bool): (t: seq<byte>)
    ensures 0 !in t
  {
    if limit < 0 && !mark then []
    else [SLASH] + (LimitDigits(limit) + FlagText(mark, QUESTION))
  }

  function LimitDigits(limit: int): (t: seq<byte>)
    ensures 0 !in t
  {
    if limit >= 0 then NumeralOf(limit) else []
  }

  /** A unit; mark says that the question mark is to be written. */
  function UnitText(u: Unit, mark: bool): (t: seq<byte>)
    requires Writable(u)
    ensures 0 !in t
  {
    HeadText(u, mark) + ([QUOTE] + (ItemsText(u.items) + [QUOTE]))
  }

  /** The question mark of a unit holds for the units behind it on its line. */
  predicate WritableLine(line: Line, nopad: bool) {
    line != [] ==> Writable(line[0]) && (nopad ==> line[0].nopad) && WritableLine(line[1..], line[0].nopad)
  }

  function LineText(line: Line, nopad: bool): (t: seq<byte>)
    requires WritableLine(line, nopad)
    ensures 0 !in t
  {
    if line == [] then []
    else
      UnitText(line[0], line[0].nopad && !nopad)
      + if |line| == 1 then [] else [BLANK] + LineText(line[1..], line[0].nopad)
  }

  predicate WritableProgram(prog: Program, nopad: bool) {
    forall i :: 0 <= i < |prog| ==> prog[i] != [] && WritableLine(prog[i], nopad)
  }

  function ProgramText(prog: Program, nopad: bool): (t: seq<byte>)
    requires WritableProgram(prog, nopad)
    ensures 0 !in t
  {
    if prog == [] then []
    else LineText(prog[0], nopad) + if |prog| == 1 then [] else [NEWLINE] + ProgramText(prog[1..], nopad)
  }

  // ------------------------------------------------------------ a text in place

  lemma AtFirst(fmt: CString, i: nat, t: seq<byte>)
    requires At(fmt, i, t) && t != []
    ensures i < |fmt| && Ch(fmt, i) == t[0]
  {
  }

  // ----------------------------------------------------------- numbers and flags

  lemma {:induction false} NumeralMore(digits: seq<byte>, d: byte, v: int)
    ensures Numeral(digits + [d], v) == Numeral(digits, v) * 10 + (d - '0' as int)
    decreases digits
  {
    if digits == [] {
      assert [d][1..] == [] && digits + [d] == [d];
    } else {
      assert (digits + [d])[1..] == digits[1..] + [d];
      NumeralMore(digits[1..], d, v * 10 + (digits[0] - '0' as int));
    }
  }

  lemma {:induction false} NumeralIs(n: nat)
    ensures forall k :: 0 <= k < |NumeralOf(n)| ==> IsDigit(NumeralOf(n)[k])
    ensures Numeral(NumeralOf(n), 0) == n && (n > 0 ==> NumeralOf(n)[0] != '0' as int)
  {
    var t := NumeralOf(n);
    if n < 10 {
      assert t[1..] == [];
    } else {
      NumeralIs(n / 10);
      NumeralMore(NumeralOf(n / 10), '0' as int + n % 10, 0);
    }
  }

  /** getint reads back a number written in front of something else. */
  lemma NumberReadsBack(fmt: CString, i: nat, n: nat)
    requires At(fmt, i, NumeralOf(n)) && n <= MAX_NUMBER && !IsDigit(Ch(fmt, i + |NumeralOf(n)|))
    ensures GetInt(fmt, i) == Number(n, i + |NumeralOf(n)|)
  {
    hide NumeralOf, Numeral, Digits;
    var t := NumeralOf(n);
    var k := |t|;
    NumeralIs(n);
    assert fmt[i..i + k] == t by {
      assert forall j :: 0 <= j < k ==> fmt[i + j] == t[j];
    }
    assert forall j :: i <= j < i + k ==> fmt[j] == t[j - i];
    GetIntReadsNumeral(fmt, i, 0, k);
  }

  lemma OneFlag(fmt: CString, i: nat, flags: int, on: bool, c: byte)
    requires At(fmt, i, FlagText(on, c)) && FlagOf(c) != 0 && 0 <= flags < FlagOf(c)
    ensures var n := i + |FlagText(on, c)|;
      n <= |fmt| && 0 <= flags + (if on then FlagOf(c) else 0) < 2 * FlagOf(c) <= 32
      && GetFlags(fmt, i, flags) == GetFlags(fmt, n, flags + if on then FlagOf(c) else 0)
  {
    if on {
      AtFirst(fmt, i, [c]);
      assert flags / FlagOf(c) == 0;
    }
  }

  lemma FlagWeights(flags: nat, k: nat)
    requires k < 5
    ensures FlagOf(FLAGS[k]) == Pow2(k)
    ensures flags % Pow2(k) + (if flags / Pow2(k) % 2 == 1 then Pow2(k) else 0) == flags % Pow2(k + 1)
    ensures flags < 32 ==> flags % Pow2(5) == flags
  {
    hide Pow2;
    Weights();
    LowBits(flags);
  }

  lemma LowBits(x: nat)
    ensures x % 1 + (if x / 1 % 2 == 1 then 1 else 0) == x % 2
    ensures x % 2 + (if x / 2 % 2 == 1 then 2 else 0) == x % 4
    ensures x % 4 + (if x / 4 % 2 == 1 then 4 else 0) == x % 8
    ensures x % 8 + (if x / 8 % 2 == 1 then 8 else 0) == x % 16
    ensures x % 16 + (if x / 16 % 2 == 1 then 16 else 0) == x % 32
  {
    LowBit(x, 1);
    LowBit(x, 2);
    LowBit(x, 4);
    LowBit(x, 8);
    LowBit(x, 16);
  }

  lemma LowBit(x: nat, w: nat)
    requires w > 0
    ensures x % w + (if x / w % 2 == 1 then w else 0) == x % (2 * w)
  {
    var q, r := x / w, x % w;
    var h := q / 2;
    assert x == q * w + r;
    if q % 2 == 1 {
      assert q == 2 * h + 1;
      Remainder(x, 2 * w, h, w + r) by { assert (2 * h + 1) * w == 2 * w * h + w; }
    } else {
      assert q == 2 * h;
      Remainder(x, 2 * w, h, r) by { assert 2 * h * w == 2 * w * h; }
    }
  }

  lemma Weights()
    ensures Pow2(0) == 1 && Pow2(1) == 2 && Pow2(2) == 4 && Pow2(3) == 8 && Pow2(4) == 16 && Pow2(5) == 32
  {
    assert Pow2(2) == 2 * Pow2(1);
    assert Pow2(3) == 2 * Pow2(2);
    assert Pow2(4) == 2 * Pow2(3);
    assert Pow2(5) == 2 * Pow2(4);
  }

  lemma {:induction false} FlagsReadBack(fmt: CString, i: nat, flags: nat, k: nat)
    requires k <= 5 && At(fmt, i, FlagsText(flags, k)) && flags < 32 && FlagOf(Ch(fmt, i + |FlagsText(flags, k)|)) == 0
    ensures flags % Pow2(k) < 32
    ensures GetFlags(fmt, i, flags % Pow2(k)) == Number(flags, i + |FlagsText(flags, k)|)
    decreases 5 - k
  {
    hide GetFlags, FlagText, Pow2, FlagOf;
    if k == 5 {
      FlagWeights(flags, 4);
      FlagsEnd(fmt, i, flags);
    } else {
      FlagWeights(flags, k);
      var on := flags / Pow2(k) % 2 == 1;
      var t := FlagText(on, FLAGS[k]);
      AtParts(fmt, i, t, FlagsText(flags, k + 1));
      OneFlag(fmt, i, flags % Pow2(k), on, FLAGS[k]);
      FlagsReadBack(fmt, i + |t|, flags, k + 1);
    }
  }

  lemma FlagsEnd(fmt: CString, i: nat, flags: nat)
    requires i <= |fmt| && flags < 32 && FlagOf(Ch(fmt, i)) == 0
    ensures GetFlags(fmt, i, flags) == Number(flags, i)
  {
  }

  // ------------------------------------------------------------------ conversions

  /** A letter is no flag, digit or point. */
  lemma LetterStarts(fc: int)
    requires Known(fc)
    ensures var c := LetterText(fc)[0];
      FlagOf(c) == 0 && !IsDigit(c) && c != DOT && c != PERCENT && c != 0 && (c == UNDERSCORE <==> AddressFc(fc) || LabelFc(fc))
  {
  }

  lemma NumberStarts(n: nat)
    requires n > 0
    ensures FlagOf(NumeralOf(n)[0]) == 0
  {
    NumeralIs(n);
  }

  /** What follows _ is read back. */
  lemma LetterReadsBack(fmt: CString, i: nat, flags: int, width: int, prec: int, fc: int)
    requires (AddressFc(fc) || LabelFc(fc)) && At(fmt, i, LetterText(fc))
    ensures i + 1 <= |fmt|
    ensures UnderscoreConversion(fmt, i + 1, flags, width, prec)
      == Conversion(fc, flags, width, prec, Natural(fc, prec), i + |LetterText(fc)|)
  {
    var t := LetterText(fc);
    assert t == fmt[i..i + |t|];
    assert fmt[i + 1] == t[1];
    if |t| > 2 { assert fmt[i + 2] == t[2]; }
  }

  lemma WidthReadsBack(fmt: CString, i: nat, width: int)
    requires At(fmt, i, WidthText(width)) && (width == -1 || 1 <= width <= MAX_NUMBER)
    requires !IsDigit(Ch(fmt, i + |WidthText(width)|))
    ensures GetInt(fmt, i) == Number(width, i + |WidthText(width)|)
  {
    hide NumeralOf, Digits;
    if width > 0 { NumberReadsBack(fmt, i, width); }
  }

  function GetPrec(fmt: CString, i: nat): Number
    requires i <= |fmt|
  {
    if Ch(fmt, i) == DOT then GetInt(fmt, i + 1) else Number(-1, i)
  }

  lemma PrecReadsBack(fmt: CString, i: nat, prec: int)
    requires At(fmt, i, PrecText(prec)) && -1 <= prec <= MAX_NUMBER
    requires var c := Ch(fmt, i + |PrecText(prec)|); !IsDigit(c) && c != DOT
    ensures GetPrec(fmt, i) == Number(prec, i + |PrecText(prec)|)
  {
    hide NumeralOf, Digits, GetInt;
    if prec >= 0 {
      AtParts(fmt, i, [DOT], NumeralOf(prec));
      AtFirst(fmt, i, [DOT]);
      NumberReadsBack(fmt, i + 1, prec);
    }
  }

  /** The conversion character of getcnv, and what it reads */
  lemma LetterDecides(fmt: CString, i: nat, flags: Number, width: Number, prec: Number, fc: int)
    requires i <= |fmt| && flags == GetFlags(fmt, i, 0) && width == GetInt(fmt, flags.next) && prec == GetPrec(fmt, width.next)
    requires Known(fc) && prec.next <= |fmt| && At(fmt, prec.next, LetterText(fc)) && (fc == FC1('s') ==> prec.value >= 0)
    ensures GetConversion(fmt, i)
      == Conversion(fc, flags.value, width.value, prec.value, Natural(fc, prec.value), prec.next + |LetterText(fc)|)
  {
    hide GetInt, GetFlags, UnderscoreConversion;
    AtFirst(fmt, prec.next, LetterText(fc));
    LetterStarts(fc);
    if AddressFc(fc) || LabelFc(fc) {
      LetterReadsBack(fmt, prec.next, flags.value, width.value, prec.value, fc);
    }
  }

  lemma FourParts(fmt: CString, i: nat, f: seq<byte>, w: seq<byte>, p: seq<byte>, l: seq<byte>)
    requires At(fmt, i, f + (w + (p + l)))
    ensures At(fmt, i, f) && At(fmt, i + |f|, w) && At(fmt, i + |f| + |w|, p) && At(fmt, i + |f| + |w| + |p|, l)
    ensures i + |f| + |w| + |p| + |l| <= |fmt|
  {
    AtParts(fmt, i, f, w + (p + l));
    AtParts(fmt, i + |f|, w, p + l);
    AtParts(fmt, i + |f| + |w|, p, l);
  }

  /** Where the parts of a conversion stand, and what each of them ends at */
  lemma ConversionParts(fmt: CString, i: nat, item: Item)
    requires item.Conv? && Spelled(item) && At(fmt, i, ConvText(item))
    ensures var f, w, p, l := FlagsText(item.flags, 0), WidthText(item.width), PrecText(item.prec), LetterText(item.fc);
      var i1 := i + |f|;
      var i2 := i1 + |w|;
      var i3 := i2 + |p|;
      && At(fmt, i, f) && At(fmt, i1, w) && At(fmt, i2, p) && At(fmt, i3, l)
      && FlagOf(Ch(fmt, i1)) == 0 && !IsDigit(Ch(fmt, i2)) && !IsDigit(Ch(fmt, i3)) && Ch(fmt, i3) != DOT
      && i + |ConvText(item)| == i3 + |l| <= |fmt|
  {
    hide NumeralOf, FlagsText, LetterText, WidthText, PrecText, FlagOf, Known, At, IsDigit, Ch;
    var f, w, p, l := FlagsText(item.flags, 0), WidthText(item.width), PrecText(item.prec), LetterText(item.fc);
    FourParts(fmt, i, f, w, p, l);
    LetterStarts(item.fc);
    AtFirst(fmt, i + |f| + |w| + |p|, l);
    PrecStarts(item.prec);
    if p != [] { AtFirst(fmt, i + |f| + |w|, p); }
    WidthStarts(item.width);
    if w != [] { AtFirst(fmt, i + |f|, w); }
  }

  lemma PrecStarts(prec: int)
    ensures PrecText(prec) != [] ==> FlagOf(PrecText(prec)[0]) == 0 && !IsDigit(PrecText(prec)[0])
  {
  }

  lemma WidthStarts(width: int)
    ensures WidthText(width) != [] ==> FlagOf(WidthText(width)[0]) == 0
  {
    if width > 0 { NumberStarts(width); }
  }

  /** getcnv reads back every conversion it can have read: flags, width, precision and letter. */
  lemma ConversionReadsBack(fmt: CString, i: nat, item: Item)
    requires item.Conv? && Spelled(item) && At(fmt, i, ConvText(item))
    ensures i + |ConvText(item)| <= |fmt|
    ensures GetConversion(fmt, i)
      == Conversion(item.fc, item.flags, item.width, item.prec, Natural(item.fc, item.prec), i + |ConvText(item)|)
  {
    hide GetConversion, GetFlags, GetInt, GetPrec, NumeralOf, FlagsText, LetterText, WidthText, PrecText, ConvText, FlagOf, Natural,
      Known, At, Pow2, IsDigit;
    ConversionParts(fmt, i, item);
    var i1 := i + |FlagsText(item.flags, 0)|;
    var i2 := i1 + |WidthText(item.width)|;
    NoFlags(item.flags);
    FlagsReadBack(fmt, i, item.flags, 0);
    WidthReadsBack(fmt, i1, item.width);
    PrecReadsBack(fmt, i2, item.prec);
    LetterDecides(fmt, i, GetFlags(fmt, i, 0), GetInt(fmt, i1), GetPrec(fmt, i2), item.fc);
  }

  lemma NoFlags(flags: nat)
    ensures flags % Pow2(0) == 0
  {
  }

  lemma PlainPercent(fmt: CString, i: nat)
    requires i < |fmt| && Ch(fmt, i) == PERCENT
    ensures GetConversion(fmt, i) == Conversion(PERCENT, 0, -1, -1, 0, i + 1)
  {
  }

  // ------------------------------------------------------------------- the items

  lemma ScanGoes(fmt: CString, limit: int, s: Scan, t: Scan)
    requires ScanOk(fmt, limit, s) && ScanStep(fmt, limit, s) == More(t)
    ensures ScanOk(fmt, limit, t) && ScanAll(fmt, limit, s) == ScanAll(fmt, limit, t)
  {
    hide ScanStep, ScanOk;
  }

  lemma BlanksMore(items: seq<Item>, item: Item)
    ensures Blanks(items + [item]) == if item.Lit? && IsSpace(item.ch, false) then Blanks(items) + 1 else 0
  {
    assert (items + [item])[..|items|] == items;
  }

  /** A character of the text stands for itself, or is written with a backslash or twice. */
  lemma LitReadsBack(fmt: CString, limit: int, s: Scan, c: byte)
    requires ScanOk(fmt, limit, s) && s.quoted && !s.escaped && At(fmt, s.i, LitText(c))
    ensures var t := CopyOut(s, c, s.i + |LitText(c)|);
      ScanOk(fmt, limit, t) && ScanAll(fmt, limit, s) == ScanAll(fmt, limit, t)
  {
    hide ScanAll, ScanOk, GetConversion, IsSpace;
    var t := LitText(c);
    AtFirst(fmt, s.i, t);
    if |t| == 2 {
      AtParts(fmt, s.i, t[..1], t[1..]);
      AtFirst(fmt, s.i + 1, t[1..]);
    }
    if c == PERCENT {
      PlainPercent(fmt, s.i + 1);
      ScanGoes(fmt, limit, s, CopyOut(s, c, s.i + 2));
    } else if |t| == 2 {
      var e := s.(i := s.i + 1, escaped := true);
      ScanGoes(fmt, limit, s, e);
      ScanGoes(fmt, limit, e, CopyOut(e, c, s.i + 2));
    } else {
      ScanGoes(fmt, limit, s, CopyOut(s, c, s.i + 1));
    }
  }

  /** The byte count of an item is the one its conversion is cut to. */
  predicate CutItem(limit: int, consumed: int, item: Item) {
    item.Conv? ==>
      && item.bytes == CutBytes(limit, consumed, Natural(item.fc, item.prec))
      && (limit >= 0 && Natural(item.fc, item.prec) > 0 ==> item.bytes != 0)
  }

  lemma ConvScans(fmt: CString, limit: int, s: Scan, item: Item)
    requires ScanOk(fmt, limit, s) && s.quoted && !s.escaped && item.Conv? && Spelled(item)
    requires At(fmt, s.i, [PERCENT] + ConvText(item)) && CutItem(limit, ItemsBytes(s.items), item)
    ensures var t := Scan(s.i + 1 + |ConvText(item)|, true, false, s.items + [item], 0);
      ScanOk(fmt, limit, t) && ScanAll(fmt, limit, s) == ScanAll(fmt, limit, t)
  {
    hide ScanAll, ScanOk, GetConversion, ConvText, Spelled, Natural, Known;
    AtParts(fmt, s.i, [PERCENT], ConvText(item));
    AtFirst(fmt, s.i, [PERCENT]);
    ConversionReadsBack(fmt, s.i + 1, item);
    assert item.fc != PERCENT by { NoPercent(item); }
    ScanGoes(fmt, limit, s, Scan(s.i + 1 + |ConvText(item)|, true, false, s.items + [item], 0));
  }

  lemma NoPercent(item: Item)
    requires item.Conv? && Spelled(item)
    ensures item.fc != PERCENT
  {
  }

  lemma ItemReadsBack(fmt: CString, limit: int, s: Scan, item: Item)
    requires ScanOk(fmt, limit, s) && s.quoted && !s.escaped && s.chop == Blanks(s.items) && Spelled(item)
    requires At(fmt, s.i, ItemText(item)) && CutItem(limit, ItemsBytes(s.items), item)
    ensures var t := Scan(s.i + |ItemText(item)|, true, false, s.items + [item], Blanks(s.items + [item]));
      ScanOk(fmt, limit, t) && ScanAll(fmt, limit, s) == ScanAll(fmt, limit, t)
  {
    hide ScanAll, ScanOk, ConvText, LitText, Spelled, CutItem, At, Blanks;
    BlanksMore(s.items, item);
    if item.Lit? {
      LitReadsBack(fmt, limit, s, item.ch);
    } else {
      ConvScans(fmt, limit, s, item);
    }
  }

  /** The whole text between the quotes */
  lemma {:induction false} ItemsReadBack(fmt: CString, limit: int, s: Scan, items: seq<Item>)
    requires ScanOk(fmt, limit, s) && s.quoted && !s.escaped && s.chop == Blanks(s.items) && s.items <= items
    requires (forall k :: 0 <= k < |items| ==> Spelled(items[k])) && CutRight(limit, items)
    requires At(fmt, s.i, ItemsText(items[|s.items|..]))
    ensures var t := Scan(s.i + |ItemsText(items[|s.items|..])|, true, false, items, Blanks(items));
      ScanOk(fmt, limit, t) && ScanAll(fmt, limit, s) == ScanAll(fmt, limit, t)
    decreases |items| - |s.items|
  {
    hide ScanAll, ScanOk, ItemText, Spelled, At, Blanks, Natural, ItemsBytes;
    var k := |s.items|;
    assert items[..k] == s.items;
    if k < |items| {
      var item, rest := items[k], items[k..];
      assert rest[0] == item && rest[1..] == items[k + 1..];
      AtParts(fmt, s.i, ItemText(item), ItemsText(rest[1..]));
      ItemReadsBack(fmt, limit, s, item);
      assert items[..k + 1] == s.items + [item];
      ItemsReadBack(fmt, limit, Scan(s.i + |ItemText(item)|, true, false, s.items + [item], Blanks(s.items + [item])), items);
    } else {
      assert items[..k] == items && items[k..] == [];
    }
  }

  // --------------------------------------------------------------- units and lines

  /** A unit ends at a blank, at the end of its line or at the end of the format. */
  predicate EndsUnit(c: byte) { c == 0 || c == BLANK || c == NEWLINE }

  function QuotedText(items: seq<Item>): (t: seq<byte>)
    requires forall k :: 0 <= k < |items| ==> Spelled(items[k])
    ensures 0 !in t
  {
    [QUOTE] + (ItemsText(items) + [QUOTE])
  }

  lemma QuoteTurns(fmt: CString, limit: int, s: Scan)
    requires ScanOk(fmt, limit, s) && !s.escaped && Ch(fmt, s.i) == QUOTE
    ensures var t := s.(i := s.i + 1, quoted := !s.quoted);
      ScanOk(fmt, limit, t) && ScanAll(fmt, limit, s) == ScanAll(fmt, limit, t)
  {
    hide ScanAll, ScanOk;
    ScanGoes(fmt, limit, s, s.(i := s.i + 1, quoted := !s.quoted));
  }

  lemma ScanStops(fmt: CString, limit: int, s: Scan)
    requires ScanOk(fmt, limit, s) && !s.escaped && !s.quoted && EndsUnit(Ch(fmt, s.i))
    ensures ScanAll(fmt, limit, s) == Done(s)
  {
    hide ScanOk;
  }

  lemma QuotedReadsBack(fmt: CString, i: nat, limit: int, items: seq<Item>)
    requires (forall k :: 0 <= k < |items| ==> Spelled(items[k])) && CutRight(limit, items)
    requires At(fmt, i, QuotedText(items)) && EndsUnit(Ch(fmt, i + |QuotedText(items)|))
    ensures i < i + |QuotedText(items)| <= |fmt|
    ensures ScanAll(fmt, limit, Scan(i, false, false, [], 0))
      == Done(Scan(i + |QuotedText(items)|, false, false, items, Blanks(items)))
  {
    hide ScanAll, ItemsText, Spelled, At, CutRight, Ch;
    var t := ItemsText(items);
    var n := i + 1 + |t|;
    AtParts(fmt, i, [QUOTE], t + [QUOTE]);
    AtParts(fmt, i + 1, t, [QUOTE]);
    AtFirst(fmt, i, [QUOTE]);
    AtFirst(fmt, n, [QUOTE]);
    QuoteTurns(fmt, limit, Scan(i, false, false, [], 0));
    assert items[0..] == items;
    ItemsReadBack(fmt, limit, Scan(i + 1, true, false, [], 0), items);
    QuoteTurns(fmt, limit, Scan(n, true, false, items, Blanks(items)));
    ScanStops(fmt, limit, Scan(n + 1, false, false, items, Blanks(items)));
  }

  /** emit_unit reads back the text of a unit: its items, its byte count and its blanks. */
  lemma UnitReadsBack(fmt: CString, u: Unit, i: nat)
    requires Writable(u) && At(fmt, i, QuotedText(u.items)) && EndsUnit(Ch(fmt, i + |QuotedText(u.items)|))
    ensures i < i + |QuotedText(u.items)| <= |fmt|
    ensures ParseUnit(fmt, Head(u.loop, Limit(u), u.nopad, i)) == Parsed(u, i + |QuotedText(u.items)|)
  {
    hide QuotedText, Spelled, At, CutRight, ScanAll, Blanks, ItemsBytes;
    QuotedReadsBack(fmt, i, Limit(u), u.items);
  }

  lemma NotBlank(fmt: CString, i: nat, newlineToo: bool)
    requires i <= |fmt| && !IsSpace(Ch(fmt, i), newlineToo)
    ensures SkipWs(fmt, i, newlineToo) == i
  {
  }

  lemma LimitReadsBack(fmt: CString, i: nat, limit: int)
    requires -1 <= limit <= MAX_NUMBER && At(fmt, i, LimitDigits(limit)) && !IsDigit(Ch(fmt, i + |LimitDigits(limit)|))
    ensures i + |LimitDigits(limit)| <= |fmt| && GetInt(fmt, i) == Number(limit, i + |LimitDigits(limit)|)
  {
    hide NumeralOf, Digits;
    if limit >= 0 { NumberReadsBack(fmt, i, limit); }
  }

  lemma LimitPlaces(fmt: CString, i: nat, limit: int, mark: bool)
    requires (limit >= 0 || mark) && At(fmt, i, LimitText(limit, mark))
    ensures var k := i + 1 + |LimitDigits(limit)|;
      && i < |fmt| && Ch(fmt, i) == SLASH && At(fmt, i + 1, LimitDigits(limit)) && (mark ==> Ch(fmt, k) == QUESTION)
      && i + |LimitText(limit, mark)| == k + (if mark then 1 else 0) <= |fmt|
  {
    hide LimitDigits, Ch, At, LimitText, FlagText;
    var digits, flag := LimitDigits(limit), FlagText(mark, QUESTION);
    LimitTextIs(limit, mark);
    AtParts(fmt, i, [SLASH], digits + flag);
    AtFirst(fmt, i, [SLASH]);
    AtParts(fmt, i + 1, digits, flag);
    AtEnds(fmt, i + 1 + |digits|, flag);
    if mark { AtFirst(fmt, i + 1 + |digits|, flag); }
  }

  lemma LimitTextIs(limit: int, mark: bool)
    requires limit >= 0 || mark
    ensures LimitText(limit, mark) == [SLASH] + (LimitDigits(limit) + FlagText(mark, QUESTION))
    ensures FlagText(mark, QUESTION) == if mark then [QUESTION] else []
  {
  }

  lemma AtEnds(fmt: CString, i: nat, t: seq<byte>)
    requires At(fmt, i, t)
    ensures i + |t| <= |fmt|
  {
  }

  /** The end of a head: what stands behind the slash */
  lemma LimitParts(fmt: CString, i: nat, limit: int, mark: bool)
    requires -1 <= limit <= MAX_NUMBER && (limit >= 0 || mark)
    requires At(fmt, i, LimitText(limit, mark))
    requires var c := Ch(fmt, i + |LimitText(limit, mark)|); c == QUOTE || c == BLANK
    ensures i < |fmt| && Ch(fmt, i) == SLASH
    ensures var n := GetInt(fmt, i + 1);
      && n.value == limit && (Ch(fmt, n.next) == QUESTION <==> mark)
      && i + |LimitText(limit, mark)| == n.next + (if mark then 1 else 0) <= |fmt|
  {
    hide GetInt, At, Ch, LimitDigits, LimitText;
    LimitPlaces(fmt, i, limit, mark);
    LimitReadsBack(fmt, i + 1, limit);
  }

  lemma LoopReadsBack(fmt: CString, i: nat, loop: nat, t: seq<byte>)
    requires loop <= MAX_NUMBER && At(fmt, i, NumeralOf(loop) + t)
    requires var c := Ch(fmt, i + |NumeralOf(loop)|); c == SLASH || c == QUOTE
    ensures var j := i + |NumeralOf(loop)|;
      j <= |fmt| && At(fmt, j, t) && GetInt(fmt, i) == Number(loop, j) && SkipWs(fmt, j, false) == j
  {
    hide NumeralOf, GetInt, SkipWs;
    AtParts(fmt, i, NumeralOf(loop), t);
    NumberReadsBack(fmt, i, loop);
    NotBlank(fmt, i + |NumeralOf(loop)|, false);
  }

  /** hxd_compile reads back the counts in front of a unit. */
  lemma HeadReadsBack(fmt: CString, i: nat, u: Unit, nopad: bool)
    requires u.loop <= MAX_NUMBER && -1 <= Limit(u) <= MAX_NUMBER && (nopad ==> u.nopad)
    requires At(fmt, i, HeadText(u, u.nopad && !nopad)) && Ch(fmt, i + |HeadText(u, u.nopad && !nopad)|) == QUOTE
    ensures i + |HeadText(u, u.nopad && !nopad)| <= |fmt|
    ensures ParseHead(fmt, i, nopad) == Head(u.loop, Limit(u), u.nopad, i + |HeadText(u, u.nopad && !nopad)|)
  {
    hide NumeralOf, GetInt, SkipWs, Limit, LimitText, At;
    var mark, limit := u.nopad && !nopad, Limit(u);
    var t := LimitText(limit, mark);
    var j := i + |NumeralOf(u.loop)|;
    AtParts(fmt, i, NumeralOf(u.loop), t);
    assert t == [] <==> limit < 0 && !mark by { LimitEmpty(limit, mark); }
    if t != [] {
      LimitParts(fmt, j, limit, mark);
    }
    LoopReadsBack(fmt, i, u.loop, t);
    NotBlank(fmt, j + |t|, false);
  }

  lemma LimitEmpty(limit: int, mark: bool)
    ensures LimitText(limit, mark) == [] <==> limit < 0 && !mark
  {
  }

  /** A whole unit, from its counts to its closing quote */
  lemma OneUnit(fmt: CString, i: nat, u: Unit, nopad: bool)
    requires Writable(u) && (nopad ==> u.nopad)
    requires At(fmt, i, UnitText(u, u.nopad && !nopad)) && EndsUnit(Ch(fmt, i + |UnitText(u, u.nopad && !nopad)|))
    ensures i + |UnitText(u, u.nopad && !nopad)| <= |fmt| && i < |fmt| && IsDigit(fmt[i])
    ensures ParseHead(fmt, i, nopad).nopad == u.nopad
    ensures ParseUnit(fmt, ParseHead(fmt, i, nopad)) == Parsed(u, i + |UnitText(u, u.nopad && !nopad)|)
  {
    hide ParseUnit, ParseHead, At, Ch, NumeralOf, LimitText, EndsUnit, ItemsText;
    var mark := u.nopad && !nopad;
    var h, q := HeadText(u, mark), QuotedText(u.items);
    AtParts(fmt, i, h, q);
    AtFirst(fmt, i + |h|, q);
    HeadReadsBack(fmt, i, u, nopad);
    UnitReadsBack(fmt, u, i + |h|);
    HeadStarts(u, mark);
    AtFirst(fmt, i, h);
    assert fmt[i] == Ch(fmt, i) by { ChIs(fmt, i); }
  }

  lemma ChIs(fmt: CString, i: nat)
    requires i < |fmt|
    ensures Ch(fmt, i) == fmt[i]
  {
  }

  lemma HeadStarts(u: Unit, mark: bool)
    ensures HeadText(u, mark) != [] && IsDigit(HeadText(u, mark)[0])
  {
    NumeralIs(u.loop);
  }

  lemma SkipOne(fmt: CString, i: nat, newlineToo: bool)
    requires i < |fmt| && IsSpace(fmt[i], newlineToo) && !IsSpace(Ch(fmt, i + 1), newlineToo)
    ensures SkipWs(fmt, i, newlineToo) == i + 1
  {
    NotBlank(fmt, i + 1, newlineToo);
  }

  lemma LineStarts(line: Line, nopad: bool)
    requires WritableLine(line, nopad) && line != []
    ensures LineText(line, nopad) != [] && IsDigit(LineText(line, nopad)[0])
  {
    hide Writable, NumeralOf, LimitText, ItemsText, WritableLine;
    assert Writable(line[0]) by { FirstWritable(line, nopad); }
    HeadStarts(line[0], line[0].nopad && !nopad);
  }

  lemma FirstWritable(line: Line, nopad: bool)
    requires WritableLine(line, nopad) && line != []
    ensures Writable(line[0]) && (nopad ==> line[0].nopad) && WritableLine(line[1..], line[0].nopad)
  {
  }

  lemma UnitsGo(fmt: CString, i: nat, nopad: bool, units: Line, u: Unit, j: nat)
    requires i < |fmt| && !IsSpace(fmt[i], true) && j <= |fmt|
    requires ParseUnit(fmt, ParseHead(fmt, i, nopad)) == Parsed(u, j) && ParseHead(fmt, i, nopad).nopad == u.nopad
    ensures Ch(fmt, j) == 0 || Ch(fmt, j) == NEWLINE ==> ParseUnits(fmt, i, nopad, units) == Parsed(units + [u], j)
    ensures Ch(fmt, j) == BLANK && IsDigit(Ch(fmt, j + 1))
      ==> j + 1 < |fmt| && !IsSpace(fmt[j + 1], true) && ParseUnits(fmt, i, nopad, units) == ParseUnits(fmt, j + 1, u.nopad, units + [u])
  {
    hide ParseUnit, ParseHead, SkipWs;
    if Ch(fmt, j) == 0 || Ch(fmt, j) == NEWLINE {
      NotBlank(fmt, j, false);
    } else if Ch(fmt, j) == BLANK && IsDigit(Ch(fmt, j + 1)) {
      SkipOne(fmt, j, false);
    }
  }

  lemma Separated(fmt: CString, i: nat, t: seq<byte>, c: byte, more: seq<byte>)
    requires At(fmt, i, t + ([c] + more))
    ensures At(fmt, i, t) && Ch(fmt, i + |t|) == c && At(fmt, i + |t| + 1, more)
  {
    hide At, Ch;
    AtParts(fmt, i, t, [c] + more);
    AtParts(fmt, i + |t|, [c], more);
    AtFirst(fmt, i + |t|, [c]);
  }

  lemma LongLineText(line: Line, nopad: bool)
    requires WritableLine(line, nopad) && |line| > 1
    ensures Writable(line[0]) && WritableLine(line[1..], line[0].nopad)
    ensures LineText(line, nopad) == UnitText(line[0], line[0].nopad && !nopad) + ([BLANK] + LineText(line[1..], line[0].nopad))
  {
    hide Writable, UnitText;
  }

  /** The first unit of a line, and where the others stand */
  lemma LineParts(fmt: CString, i: nat, line: Line, nopad: bool)
    requires WritableLine(line, nopad) && |line| > 1 && At(fmt, i, LineText(line, nopad))
    ensures Writable(line[0])
    ensures var j := i + |UnitText(line[0], line[0].nopad && !nopad)|;
      && At(fmt, i, UnitText(line[0], line[0].nopad && !nopad)) && Ch(fmt, j) == BLANK
      && WritableLine(line[1..], line[0].nopad) && At(fmt, j + 1, LineText(line[1..], line[0].nopad)) && IsDigit(Ch(fmt, j + 1))
      && i + |LineText(line, nopad)| == j + 1 + |LineText(line[1..], line[0].nopad)|
  {
    hide Writable, UnitText, At, WritableLine, Ch, IsDigit, LineText;
    LongLineText(line, nopad);
    var u, rest := line[0], line[1..];
    var t, more := UnitText(u, u.nopad && !nopad), LineText(rest, u.nopad);
    Separated(fmt, i, t, BLANK, more);
    LineStarts(rest, u.nopad);
    AtFirst(fmt, i + |t| + 1, more);
  }

  lemma SingleText(line: Line, nopad: bool)
    requires WritableLine(line, nopad) && |line| == 1
    ensures Writable(line[0]) && (nopad ==> line[0].nopad) && LineText(line, nopad) == UnitText(line[0], line[0].nopad && !nopad)
  {
    hide Writable, UnitText;
  }

  lemma DigitNoSpace(c: byte)
    ensures IsDigit(c) ==> !IsSpace(c, true)
    ensures c == 0 || c == NEWLINE || c == BLANK <==> EndsUnit(c)
  {
  }

  /** The units of a line, in order */
  lemma {:induction false} LineReadsBack(fmt: CString, i: nat, line: Line, nopad: bool, units: Line)
    requires WritableLine(line, nopad) && line != [] && At(fmt, i, LineText(line, nopad))
    requires var c := Ch(fmt, i + |LineText(line, nopad)|); c == 0 || c == NEWLINE
    ensures i + |LineText(line, nopad)| <= |fmt| && i < |fmt| && !IsSpace(fmt[i], true)
    ensures ParseUnits(fmt, i, nopad, units) == Parsed(units + line, i + |LineText(line, nopad)|)
    decreases line
  {
    hide Writable, UnitText, At, ParseUnit, ParseUnits, ParseHead, SkipWs, WritableLine, Ch, LineText, IsSpace, IsDigit, EndsUnit;
    var u, rest := line[0], line[1..];
    if |line| == 1 {
      SingleText(line, nopad);
    } else {
      FirstWritable(line, nopad);
      LineParts(fmt, i, line, nopad);
    }
    var j := i + |UnitText(u, u.nopad && !nopad)|;
    DigitNoSpace(Ch(fmt, j));
    OneUnit(fmt, i, u, nopad);
    DigitNoSpace(fmt[i]);
    UnitsGo(fmt, i, nopad, units, u, j);
    if |line| == 1 {
      assert units + [u] == units + line;
    } else {
      LineReadsBack(fmt, j + 1, rest, u.nopad, units + [u]);
      assert units + [u] + rest == units + line;
    }
  }

  lemma SkipLine(fmt: CString, i: nat, nopad: bool, lines: Program)
    requires i < |fmt| && fmt[i] == NEWLINE
    ensures ParseLines(fmt, i, nopad, lines) == ParseLines(fmt, i + 1, nopad, lines)
  {
    hide ParseUnits;
  }

  lemma LinesGo(fmt: CString, i: nat, nopad: bool, lines: Program, line: Line, k: nat)
    requires i < |fmt| && !IsSpace(fmt[i], true) && i < k <= |fmt| && ParseUnits(fmt, i, nopad, []) == Parsed(line, k)
    ensures ParseLines(fmt, i, nopad, lines) == ParseLines(fmt, k, nopad, lines + [line])
    ensures Ch(fmt, k) == NEWLINE ==> k < |fmt| && ParseLines(fmt, i, nopad, lines) == ParseLines(fmt, k + 1, nopad, lines + [line])
  {
    hide ParseUnits, SkipWs;
    NotBlank(fmt, i, true);
    if Ch(fmt, k) == NEWLINE { SkipLine(fmt, k, nopad, lines + [line]); }
    NotNul(fmt, i);
  }

  lemma NotNul(fmt: CString, i: nat)
    requires i < |fmt|
    ensures Ch(fmt, i) != 0
  {
    assert fmt[i] in fmt;
  }

  lemma LinesStop(fmt: CString, nopad: bool, lines: Program)
    ensures ParseLines(fmt, |fmt|, nopad, lines) == Parsed(lines, |fmt|)
  {
  }

  lemma LongProgramText(prog: Program, nopad: bool)
    requires WritableProgram(prog, nopad) && prog != []
    ensures prog[0] != [] && WritableLine(prog[0], nopad) && WritableProgram(prog[1..], nopad)
    ensures ProgramText(prog, nopad)
      == if |prog| == 1 then LineText(prog[0], nopad) else LineText(prog[0], nopad) + ([NEWLINE] + ProgramText(prog[1..], nopad))
  {
    hide WritableLine, LineText;
    var t := LineText(prog[0], nopad);
    assert t + [] == t;
  }

  lemma AtEndIsNul(fmt: CString)
    ensures Ch(fmt, |fmt|) == 0
  {
  }

  lemma {:induction false} LinesReadBack(fmt: CString, i: nat, prog: Program, nopad: bool, lines: Program)
    requires WritableProgram(prog, nopad) && At(fmt, i, ProgramText(prog, nopad)) && i + |ProgramText(prog, nopad)| == |fmt|
    ensures ParseLines(fmt, i, nopad, lines) == Parsed(lines + prog, |fmt|)
    decreases prog
  {
    hide At, ParseLines, WritableLine, LineText, WritableProgram, Ch, ProgramText;
    LinesStop(fmt, nopad, lines + prog);
    if prog == [] {
      NoText(nopad);
      assert lines + prog == lines;
    } else {
      var line, rest := prog[0], prog[1..];
      FirstLineReads(fmt, i, prog, nopad, lines);
      if |prog| == 1 {
        assert lines + [line] == lines + prog;
      } else {
        LinesReadBack(fmt, i + |LineText(line, nopad)| + 1, rest, nopad, lines + [line]);
        assert lines + [line] + rest == lines + prog;
      }
    }
  }

  /** The first line is read, and the others stand behind it. */
  lemma FirstLineReads(fmt: CString, i: nat, prog: Program, nopad: bool, lines: Program)
    requires prog != [] && WritableProgram(prog, nopad) && At(fmt, i, ProgramText(prog, nopad)) && i + |ProgramText(prog, nopad)| == |fmt|
    ensures WritableProgram(prog[1..], nopad) && WritableLine(prog[0], nopad)
    ensures |prog| == 1 ==> ParseLines(fmt, i, nopad, lines) == ParseLines(fmt, |fmt|, nopad, lines + [prog[0]])
    ensures |prog| > 1 ==>
      var k := i + |LineText(prog[0], nopad)| + 1;
      && At(fmt, k, ProgramText(prog[1..], nopad)) && k + |ProgramText(prog[1..], nopad)| == |fmt|
      && ParseLines(fmt, i, nopad, lines) == ParseLines(fmt, k, nopad, lines + [prog[0]])
  {
    hide At, ParseUnits, ParseLines, SkipWs, WritableLine, LineText, IsSpace, WritableProgram, Ch, ProgramText;
    var line := prog[0];
    LongProgramText(prog, nopad);
    if |prog| > 1 { Separated(fmt, i, LineText(line, nopad), NEWLINE, ProgramText(prog[1..], nopad)); }
    AtEndIsNul(fmt);
    LineReadsBack(fmt, i, line, nopad, []);
    assert [] + line == line;
    LineNotEmpty(line, nopad);
    LinesGo(fmt, i, nopad, lines, line, i + |LineText(line, nopad)|);
  }

  lemma NoText(nopad: bool)
    ensures ProgramText([], nopad) == []
  {
  }

  lemma LineNotEmpty(line: Line, nopad: bool)
    requires WritableLine(line, nopad) && line != []
    ensures LineText(line, nopad) != []
  {
    LineStarts(line, nopad);
  }

  /** The text of a program parses to just that program. */
  lemma ProgramReadsBack(prog: Program, nopad: bool)
    requires WritableProgram(prog, nopad) && |ProgramText(prog, nopad)| < 0x8000_0000
    ensures Parse(ProgramText(prog, nopad), nopad) == Parsed(prog, |ProgramText(prog, nopad)|)
  {
    hide ProgramText, ParseLines, WritableProgram;
    var fmt: CString := ProgramText(prog, nopad);
    assert At(fmt, 0, fmt);
    LinesReadBack(fmt, 0, prog, nopad, []);
    assert [] + prog == prog;
  }

  // ------------------------------------------- every parsed program can be written

  predicate KnownItem(item: Item) { item.Conv? ==> Known(item.fc) }

  predicate KnownUnit(u: Unit) { forall k :: 0 <= k < |u.items| ==> KnownItem(u.items[k]) }

  /** No conversion of the program is one that vm_conv refuses. */
  predicate KnownProgram(prog: Program) {
    forall i, j :: 0 <= i < |prog| && 0 <= j < |prog[i]| ==> KnownUnit(prog[i][j])
  }

  lemma {:induction false} FlagsEndHere(fmt: CString, i: nat, flags: int)
    requires i <= |fmt| && 0 <= flags < 32
    ensures FlagOf(Ch(fmt, GetFlags(fmt, i, flags).next)) == 0
    decreases |fmt| - i
  {
    if FlagOf(Ch(fmt, i)) != 0 { FlagsEndHere(fmt, i + 1, OrFlag(flags, FlagOf(Ch(fmt, i)))); }
  }

  lemma {:induction false} DigitsPositive(fmt: CString, i: nat, v: nat)
    requires i < |fmt| && IsDigit(fmt[i]) && v <= INT_LIMIT && (v > 0 || fmt[i] != '0' as int)
    ensures Digits(fmt, i, v).value > 0
    decreases |fmt| - i
  {
    var w := v * 10 + (fmt[i] - '0' as int);
    if IsDigit(Ch(fmt, i + 1)) && w <= INT_LIMIT { DigitsPositive(fmt, i + 1, w); }
  }

  lemma WidthPositive(fmt: CString, i: nat)
    requires i <= |fmt|
    ensures var w := GetInt(fmt, GetFlags(fmt, i, 0).next).value; w == -1 || w >= 1
  {
    hide Digits, GetFlags;
    var j := GetFlags(fmt, i, 0).next;
    FlagsEndHere(fmt, i, 0);
    if IsDigit(Ch(fmt, j)) { DigitsPositive(fmt, j, 0); }
  }

  /** What getcnv reads is spelled as it can be read back, and reads what it naturally does. */
  lemma ConversionIsSpelled(fmt: CString, i: nat)
    requires i <= |fmt|
    ensures var c := GetConversion(fmt, i);
      c.Conversion? && Known(c.fc) ==>
        c.bytes == Natural(c.fc, c.prec) && forall n :: Spelled(Conv(c.flags, c.width, c.prec, c.fc, n))
  {
    hide GetFlags, GetInt;
    WidthPositive(fmt, i);
  }

  /** The items read so far */
  predicate Written(limit: int, items: seq<Item>) {
    forall k :: 0 <= k < |items| && KnownItem(items[k]) ==> Spelled(items[k]) && CutItem(limit, ItemsBytes(items[..k]), items[k])
  }

  lemma WrittenMore(limit: int, items: seq<Item>, item: Item)
    requires Written(limit, items) && (KnownItem(item) ==> Spelled(item) && CutItem(limit, ItemsBytes(items), item))
    ensures Written(limit, items + [item])
  {
    hide Spelled, CutItem, ItemsBytes, KnownItem;
    var more := items + [item];
    assert more[..|items|] == items;
    assert forall k :: 0 <= k < |items| ==> more[k] == items[k] && more[..k] == items[..k];
  }

  lemma StepWrites(fmt: CString, limit: int, s: Scan)
    requires ScanOk(fmt, limit, s) && Written(limit, s.items) && s.chop == Blanks(s.items)
    ensures var r := ScanStep(fmt, limit, s); r.More? ==> Written(limit, r.scan.items) && r.scan.chop == Blanks(r.scan.items)
  {
    hide GetConversion, Written, Blanks, Known, Spelled, Natural, IsSpace, ItemsBytes;
    var r := ScanStep(fmt, limit, s);
    if r.More? && r.scan.items != s.items {
      var item := r.scan.items[|s.items|];
      assert r.scan.items == s.items + [item];
      BlanksMore(s.items, item);
      if item.Conv? { ConversionIsSpelled(fmt, s.i + 1); } else { LitSpelled(item); }
      WrittenMore(limit, s.items, item);
    }
  }

  lemma LitSpelled(item: Item)
    requires item.Lit?
    ensures Spelled(item)
  {
  }

  lemma {:induction false} ScanWrites(fmt: CString, limit: int, s: Scan)
    requires ScanOk(fmt, limit, s) && Written(limit, s.items) && s.chop == Blanks(s.items)
    ensures var r := ScanAll(fmt, limit, s); r.Done? ==> Written(limit, r.scan.items) && r.scan.chop == Blanks(r.scan.items)
    decreases |fmt| - s.i
  {
    hide ScanStep, Written, Blanks, ItemsBytes, ValidItem, EndsInBlanks;
    StepWrites(fmt, limit, s);
    var r := ScanStep(fmt, limit, s);
    if r.More? { ScanWrites(fmt, limit, r.scan); }
  }

  lemma {:induction false} PrefixBytes(items: seq<Item>, k: nat)
    requires k < |items| && forall j :: 0 <= j < |items| ==> ItemBytes(items[j]) >= 0
    ensures ItemsBytes(items[..k]) + ItemBytes(items[k]) <= ItemsBytes(items)
    decreases |items|
  {
    var n := |items| - 1;
    if k < n {
      PrefixBytes(items[..n], k);
      assert items[..n][..k] == items[..k];
    }
  }

  lemma NothingCut(limit: int, items: seq<Item>)
    requires Written(limit, items) && (forall k :: 0 <= k < |items| ==> KnownItem(items[k]) && ItemBytes(items[k]) >= 0)
    requires ItemsBytes(items) < limit
    ensures CutRight(-1, items)
  {
    hide Known, Spelled, ItemsBytes, Natural;
    forall k | 0 <= k < |items|
      ensures CutItem(-1, ItemsBytes(items[..k]), items[k])
    {
      PrefixBytes(items, k);
      assert CutItem(limit, ItemsBytes(items[..k]), items[k]);
    }
  }

  lemma WrittenCuts(limit: int, items: seq<Item>)
    requires Written(limit, items) && (forall k :: 0 <= k < |items| ==> KnownItem(items[k]))
    ensures CutRight(limit, items) && forall k :: 0 <= k < |items| ==> Spelled(items[k])
  {
    hide Known, Spelled, ItemsBytes, KnownItem, Natural;
    assert forall k :: 0 <= k < |items| ==> CutItem(limit, ItemsBytes(items[..k]), items[k]);
  }

  /** The byte count of a unit decides its cuts as far as it matters. */
  lemma CutsAgree(limit: int, u: Unit)
    requires Written(limit, u.items) && KnownUnit(u) && -1 <= limit <= MAX_NUMBER && 0 <= ItemsBytes(u.items)
    requires (limit >= 0 ==> ItemsBytes(u.items) <= limit) && forall k :: 0 <= k < |u.items| ==> ItemBytes(u.items[k]) >= 0
    requires u.skip == if u.loop > 0 && ItemsBytes(u.items) < limit then limit - ItemsBytes(u.items) else 0
    ensures CutRight(Limit(u), u.items) && -1 <= Limit(u) <= MAX_NUMBER
  {
    hide Written, CutRight, ItemsBytes, KnownItem, ItemBytes;
    WrittenCuts(limit, u.items);
    if limit >= 0 && u.skip == 0 && ItemsBytes(u.items) < limit {
      NothingCut(limit, u.items);
    }
  }

  /** What emit_unit accepts can be written. */
  lemma UnitWritable(fmt: CString, head: Head)
    requires head.next <= |fmt| && head.loop <= MAX_NUMBER && -1 <= head.limit <= MAX_NUMBER
    ensures var r := ParseUnit(fmt, head);
      r.Parsed? ==> r.value.nopad == head.nopad && (KnownUnit(r.value) ==> Writable(r.value))
  {
    hide ScanAll, Written, CutRight, Limit, ItemsBytes, Blanks, KnownItem, Spelled, ValidItem;
    var s0 := Scan(head.next, false, false, [], 0);
    NothingWritten(head.limit, s0);
    ScanWrites(fmt, head.limit, s0);
    var r := ParseUnit(fmt, head);
    if r.Parsed? && KnownUnit(r.value) {
      var s := ScanAll(fmt, head.limit, s0).scan;
      forall k | 0 <= k < |s.items|
        ensures ItemBytes(s.items[k]) >= 0
      {
        ValidBytes(s.items[k]);
      }
      CutsAgree(head.limit, r.value);
      WrittenCuts(head.limit, s.items);
    }
  }

  lemma NothingWritten(limit: int, s: Scan)
    requires s.items == [] && s.chop == 0 && -1 <= limit
    ensures Written(limit, s.items) && s.chop == Blanks(s.items) && 0 <= ItemsBytes(s.items) && (limit >= 0 ==> ItemsBytes(s.items) <= limit)
  {
  }

  lemma ValidBytes(item: Item)
    requires ValidItem(item)
    ensures ItemBytes(item) >= 0
  {
  }

  lemma {:induction false} UnitsWritable(fmt: CString, i: nat, nopad: bool, units: Line)
    requires i < |fmt| && !IsSpace(fmt[i], true)
    ensures var r := ParseUnits(fmt, i, nopad, units);
      r.Parsed? ==>
        && |units| < |r.value| && units == r.value[..|units|]
        && ((forall k :: |units| <= k < |r.value| ==> KnownUnit(r.value[k])) ==> WritableLine(r.value[|units|..], nopad))
    decreases |fmt| - i
  {
    hide ParseUnit, ParseHead, SkipWs, Writable, KnownUnit;
    var head := ParseHead(fmt, i, nopad);
    UnitMoves(fmt, i, head);
    UnitWritable(fmt, head);
    HeadSticks(fmt, i, nopad);
    match ParseUnit(fmt, head)
    case Refused(e) =>
    case Parsed(u, j) =>
      var k := SkipWs(fmt, j, false);
      if Ch(fmt, k) == 0 || Ch(fmt, k) == NEWLINE {
        assert (units + [u])[|units|..] == [u] && [u][1..] == [];
      } else {
        SkipWsSpaces(fmt, j);
        UnitsWritable(fmt, k, head.nopad, units + [u]);
        var more := ParseUnits(fmt, k, head.nopad, units + [u]);
        if more.Parsed? { LineGrows(more.value, units, u, nopad); }
      }
  }

  lemma HeadSticks(fmt: CString, i: nat, nopad: bool)
    requires i <= |fmt|
    ensures nopad ==> ParseHead(fmt, i, nopad).nopad
  {
    hide GetInt, SkipWs;
  }

  lemma LineGrows(line: Line, units: Line, u: Unit, nopad: bool)
    requires |units| + 1 < |line| && units + [u] == line[..|units| + 1]
    ensures units == line[..|units|] && line[|units|] == u
    ensures Writable(u) && (nopad ==> u.nopad) && WritableLine(line[|units| + 1..], u.nopad) ==> WritableLine(line[|units|..], nopad)
  {
    hide Writable;
    assert line[..|units|] == line[..|units| + 1][..|units|];
    assert line[|units|..][1..] == line[|units| + 1..];
  }

  lemma {:induction false} LinesWritable(fmt: CString, i: nat, nopad: bool, lines: Program)
    requires i <= |fmt|
    ensures var r := ParseLines(fmt, i, nopad, lines);
      r.Parsed? ==>
        && lines <= r.value
        && forall k :: |lines| <= k < |r.value| ==>
             r.value[k] != [] && ((forall j :: 0 <= j < |r.value[k]| ==> KnownUnit(r.value[k][j])) ==> WritableLine(r.value[k], nopad))
    decreases |fmt| - i
  {
    hide ParseUnits, SkipWs, WritableLine, KnownUnit;
    var j := SkipWs(fmt, i, true);
    if Ch(fmt, j) != 0 {
      UnitsWritable(fmt, j, nopad, []);
      var r := ParseUnits(fmt, j, nopad, []);
      if r.Parsed? {
        assert r.value[0..] == r.value;
        LinesWritable(fmt, r.next, nopad, lines + [r.value]);
        assert (lines + [r.value])[|lines|] == r.value;
      }
    }
  }

  /** Parsing reaches only programs that can be written: every format without a conversion that
      vm_conv refuses means the same as the text of its program. */
  lemma ParsedIsWritable(fmt: CString, nopad: bool)
    ensures var r := Parse(fmt, nopad);
      r.Parsed? && KnownProgram(r.value) ==>
        && WritableProgram(r.value, nopad)
        && (|ProgramText(r.value, nopad)| < 0x8000_0000
            ==> Parse(ProgramText(r.value, nopad), nopad) == Parsed(r.value, |ProgramText(r.value, nopad)|))
  {
    hide ParseLines, WritableLine, KnownUnit, ProgramText;
    LinesWritable(fmt, 0, nopad, []);
    var r := Parse(fmt, nopad);
    if r.Parsed? && KnownProgram(r.value) {
      forall k | 0 <= k < |r.value|
        ensures r.value[k] != [] && WritableLine(r.value[k], nopad)
      {
        assert forall j :: 0 <= j < |r.value[k]| ==> KnownUnit(r.value[k][j]);
      }
      if |ProgramText(r.value, nopad)| < 0x8000_0000 { ProgramReadsBack(r.value, nopad); }
    }
  }
}
