/** How hxd_compile, emit_unit, getcnv and getint read a format string. */
module HexdumpParser {
  import opened Arithmetic

  import opened HexdumpMachine
  import opened HexdumpFormat

  /** A C string: no byte of it is NUL, and its length is an int. */
  type CString = s: seq<byte> | 0 !in s && |s| < 0x8000_0000

  /** The byte under a pointer into the string; its NUL at the end. */
  function Ch(fmt: CString, i: nat): byte {
    if i < |fmt| then fmt[i] else 0
  }

  const QUOTE: byte := '"' as int
  const BACKSLASH: byte := '\\' as int
  const PERCENT: byte := '%' as int
  const SLASH: byte := '/' as int
  const QUESTION: byte := '?' as int
  const UNDERSCORE: byte := '_' as int
  const DOT: byte := '.' as int
  const NEWLINE: byte := 10
  const TAB: byte := 9
  const BLANK: byte := 32

  /** hxd_isspace */
  predicate IsSpace(c: byte, newlineToo: bool) {
    (c == 9 || c == 10 || c == 11 || c == 12 || c == 13 || c == 32) && (newlineToo || c != NEWLINE)
  }

  /** skipws */
  function SkipWs(fmt: CString, i: nat, newlineToo: bool): (r: nat)
    requires i <= |fmt|
    ensures i <= r <= |fmt|
    ensures !IsSpace(Ch(fmt, r), newlineToo)
    ensures !IsSpace(Ch(fmt, i), newlineToo) ==> r == i
    decreases |fmt| - i
  {
    if IsSpace(Ch(fmt, i), newlineToo) then SkipWs(fmt, i + 1, newlineToo) else i
  }

  predicate IsDigit(c: byte) { '0' as int <= c <= '9' as int }

  /** getint stops before a further digit could overflow an int. */
  const INT_LIMIT := 214748363

  datatype Number = Number(value: int, next: nat)

  function Digits(fmt: CString, i: nat, v: nat): (r: Number)
    requires i < |fmt| && IsDigit(fmt[i]) && v <= INT_LIMIT
    ensures 0 <= r.value <= 2147483639 && i < r.next <= |fmt|
    decreases |fmt| - i
  {
    var w := v * 10 + (fmt[i] - '0' as int);
    if IsDigit(Ch(fmt, i + 1)) && w <= INT_LIMIT then Digits(fmt, i + 1, w) else Number(w, i + 1)
  }

  /** getint: -1 when there is no digit. */
  function GetInt(fmt: CString, i: nat): (r: Number)
    requires i <= |fmt|
    ensures -1 <= r.value <= 2147483639 && i <= r.next <= |fmt|
    ensures r.value == -1 <==> r.next == i
  {
    if IsDigit(Ch(fmt, i)) then Digits(fmt, i, 0) else Number(-1, i)
  }

  function FlagOf(c: byte): int {
    if c == '#' as int then F_HASH
    else if c == '0' as int then F_ZERO
    else if c == '-' as int then F_MINUS
    else if c == ' ' as int then F_SPACE
    else if c == '+' as int then F_PLUS
    else 0
  }

  /** flags | flag */
  function OrFlag(flags: int, flag: int): (r: int)
    requires 0 <= flags < 32 && flag in {F_HASH, F_ZERO, F_MINUS, F_SPACE, F_PLUS}
    ensures 0 <= r < 32
  {
    if flags / flag % 2 == 1 then flags else flags + flag
  }

  function GetFlags(fmt: CString, i: nat, flags: int): (r: Number)
    requires i <= |fmt| && 0 <= flags < 32
    ensures 0 <= r.value < 32 && i <= r.next <= |fmt|
    decreases |fmt| - i
  {
    if FlagOf(Ch(fmt, i)) == 0 then Number(flags, i)
    else GetFlags(fmt, i + 1, OrFlag(flags, FlagOf(Ch(fmt, i))))
  }

  datatype Conversion = Conversion(fc: int, flags: int, width: int, prec: int, bytes: int, next: nat) | NoConversion

  /** The conversion characters after %_ : c, p and u read a byte, ad, ao and ax read none. */
  function UnderscoreConversion(fmt: CString, i: nat, flags: int, width: int, prec: int): Conversion
    requires i <= |fmt|
  {
    var c := Ch(fmt, i);
    var d := Ch(fmt, i + 1);
    if c == 'c' as int then Conversion(FC2('c'), flags, width, prec, 1, i + 1)
    else if c == 'p' as int then Conversion(FC2('p'), flags, width, prec, 1, i + 1)
    else if c == 'u' as int then Conversion(FC2('u'), flags, width, prec, 1, i + 1)
    else if c == 'a' as int && d == 'd' as int then Conversion(FC2('d'), flags, width, prec, 0, i + 2)
    else if c == 'a' as int && d == 'o' as int then Conversion(FC2('o'), flags, width, prec, 0, i + 2)
    else if c == 'a' as int && d == 'x' as int then Conversion(FC2('x'), flags, width, prec, 0, i + 2)
    else NoConversion
  }

  /** getcnv, entered behind the percent sign */
  function GetConversion(fmt: CString, i: nat): (r: Conversion)
    requires i <= |fmt|
    ensures r.Conversion? ==> i < r.next <= |fmt| && ValidItem(Conv(r.flags, r.width, r.prec, r.fc, r.bytes))
  {
    var flags := GetFlags(fmt, i, 0);
    var width := GetInt(fmt, flags.next);
    var dot := Ch(fmt, width.next) == DOT;
    var prec := if dot then GetInt(fmt, width.next + 1) else Number(-1, width.next);
    var c := Ch(fmt, prec.next);
    if c == 0 then NoConversion
    else if c == UNDERSCORE then UnderscoreConversion(fmt, prec.next + 1, flags.value, width.value, prec.value)
    else if c == 's' as int && prec.value == -1 then NoConversion
    else
      var bytes :=
        if c == 'c' as int then 1
        else if c == 'd' as int || c == 'i' as int || c == 'o' as int || c == 'u' as int
                || c == 'X' as int || c == 'x' as int then 4
        else if c == 's' as int then prec.value
        else 0;
      Conversion(c, flags.value, width.value, prec.value, bytes, prec.next + 1)
  }

  /** A letter behind a backslash */
  function Unescape(c: byte): byte {
    if c == '0' as int then 0
    else if c == 'a' as int then 7
    else if c == 'b' as int then 8
    else if c == 'f' as int then 12
    else if c == 'n' as int then 10
    else if c == 'r' as int then 13
    else if c == 't' as int then 9
    else if c == 'v' as int then 11
    else c
  }

  /** The scan of emit_unit: position, quoting, and the items so far. */
  datatype Scan = Scan(i: nat, quoted: bool, escaped: bool, items: seq<Item>, chop: nat)

  datatype Scanned = More(scan: Scan) | Done(scan: Scan) | Bad(error: Error)

  function CopyOut(s: Scan, ch: byte, next: nat): Scan {
    Scan(next, s.quoted, false, s.items + [Lit(ch)], if IsSpace(ch, false) then s.chop + 1 else 0)
  }

  /** What a conversion reads when the unit has limit bytes in all. */
  function CutBytes(limit: int, consumed: int, bytes: int): int {
    if limit >= 0 && bytes > 0 then Min(limit - consumed, bytes) else bytes
  }

  predicate ScanOk(fmt: CString, limit: int, s: Scan) {
    && s.i <= |fmt| && s.chop <= s.i && EndsInBlanks(s.items, s.chop)
    && (forall k :: 0 <= k < |s.items| ==> ValidItem(s.items[k]))
    && 0 <= ItemsBytes(s.items) && (limit >= 0 ==> ItemsBytes(s.items) <= limit)
  }

  lemma Appended(items: seq<Item>, item: Item)
    ensures ItemsBytes(items + [item]) == ItemsBytes(items) + ItemBytes(item)
  {
    assert (items + [item])[..|items|] == items;
  }

  lemma ScanGrows(fmt: CString, limit: int, s: Scan, item: Item, s': Scan)
    requires ScanOk(fmt, limit, s) && ValidItem(item) && 0 <= ItemBytes(item)
    requires limit >= 0 ==> ItemsBytes(s.items) + ItemBytes(item) <= limit
    requires s'.items == s.items + [item] && s.i < s'.i <= |fmt|
    requires s'.chop == 0 || (s'.chop == s.chop + 1 && item.Lit?)
    ensures ScanOk(fmt, limit, s')
  {
    hide ValidItem, ItemBytes, ItemsBytes;
    Appended(s.items, item);
  }

  lemma CutIsValid(limit: int, consumed: int, c: Conversion)
    requires c.Conversion? && ValidItem(Conv(c.flags, c.width, c.prec, c.fc, c.bytes))
    requires limit >= 0 ==> consumed <= limit
    ensures var cut := CutBytes(limit, consumed, c.bytes);
      0 <= cut && (limit >= 0 && c.bytes > 0 ==> consumed + cut <= limit)
      && ((limit >= 0 && c.bytes > 0 && cut == 0) || ValidItem(Conv(c.flags, c.width, c.prec, c.fc, cut)))
  {
  }

  /** A percent sign outside an escape */
  function ScanPercent(fmt: CString, limit: int, s: Scan): (r: Scanned)
    requires ScanOk(fmt, limit, s) && s.i < |fmt|
    ensures r.More? ==> s.i < r.scan.i && ScanOk(fmt, limit, r.scan)
    ensures !r.Done?
  {
    match GetConversion(fmt, s.i + 1)
    case NoConversion => Bad(FORMAT)
    case Conversion(fc, flags, width, prec, bytes, next) =>
      if fc == PERCENT then
        ScanGrows(fmt, limit, s, Lit(PERCENT), CopyOut(s, PERCENT, next));
        More(CopyOut(s, PERCENT, next))
      else
        var cut := CutBytes(limit, ItemsBytes(s.items), bytes);
        if limit >= 0 && bytes > 0 && cut == 0 then Bad(DRAINED)
        else
          var item := Conv(flags, width, prec, fc, cut);
          var s' := Scan(next, s.quoted, false, s.items + [item], 0);
          CutIsValid(limit, ItemsBytes(s.items), Conversion(fc, flags, width, prec, bytes, next));
          ScanGrows(fmt, limit, s, item, s');
          More(s')
  }

  /** One turn of the scan. */
  function ScanStep(fmt: CString, limit: int, s: Scan): (r: Scanned)
    requires ScanOk(fmt, limit, s)
    ensures r.More? ==> s.i < r.scan.i && ScanOk(fmt, limit, r.scan)
    ensures r.Done? ==> r.scan == s
  {
    var ch := Ch(fmt, s.i);
    if ch == 0 then Done(s)
    else if ch == PERCENT && !s.escaped then ScanPercent(fmt, limit, s)
    else if (ch == BLANK || ch == TAB || ch == NEWLINE) && !s.quoted && !s.escaped then Done(s)
    else if ch == QUOTE && !s.escaped then More(s.(i := s.i + 1, quoted := !s.quoted))
    else if ch == BACKSLASH && !s.escaped then More(s.(i := s.i + 1, escaped := true))
    else
      var c := if s.escaped then Unescape(ch) else ch;
      ScanGrows(fmt, limit, s, Lit(c), CopyOut(s, c, s.i + 1));
      More(CopyOut(s, c, s.i + 1))
  }

  function ScanAll(fmt: CString, limit: int, s: Scan): (r: Scanned)
    requires ScanOk(fmt, limit, s)
    ensures !r.More?
    ensures r.Done? ==> s.i <= r.scan.i && ScanOk(fmt, limit, r.scan)
    decreases |fmt| - s.i
  {
    match ScanStep(fmt, limit, s)
    case More(s') => ScanAll(fmt, limit, s')
    case Done(s') => Done(s')
    case Bad(e) => Bad(e)
  }

  /** The repetition count and byte count in front of a unit. */
  datatype Head = Head(loop: nat, limit: int, nopad: bool, next: nat)

  function ParseHead(fmt: CString, i: nat, nopad: bool): (r: Head)
    requires i <= |fmt|
    ensures i <= r.next <= |fmt| && r.loop <= 2147483639 && -1 <= r.limit <= 2147483639
    ensures !IsSpace(Ch(fmt, i), false) && r.next == i ==> Ch(fmt, r.next) == Ch(fmt, i)
  {
    var loop := GetInt(fmt, i);
    var n := if loop.value < 0 then 1 else loop.value;
    var j := SkipWs(fmt, loop.next, false);
    if Ch(fmt, j) == SLASH then
      var limit := GetInt(fmt, j + 1);
      var short := Ch(fmt, limit.next) == QUESTION;
      var k := if short then limit.next + 1 else limit.next;
      Head(n, limit.value, nopad || short, SkipWs(fmt, k, false))
    else
      Head(n, -1, nopad, SkipWs(fmt, j, false))
  }

  datatype Parsed<T> = Parsed(value: T, next: nat) | Refused(error: Error)

  function MakeUnit(head: Head, s: Scan): Unit {
    var consumed := ItemsBytes(s.items);
    Unit(head.loop, head.nopad, s.items,
      if head.loop > 0 && consumed < head.limit then (head.limit - consumed) as nat else 0, s.chop)
  }

  /** One format unit. */
  function ParseUnit(fmt: CString, head: Head): (r: Parsed<Unit>)
    requires head.next <= |fmt|
    ensures r.Parsed? ==> head.next <= r.next <= |fmt|
  {
    match ScanAll(fmt, head.limit, Scan(head.next, false, false, [], 0))
    case Bad(e) => Refused(e)
    case Done(s) =>
      var u := MakeUnit(head, s);
      if u.nopad && Consumes(u) > 255 then Refused(RANGE) else Parsed(u, s.i)
  }

  /** The units of one line, each accepted unit appended to those before it. */
  function ParseUnits(fmt: CString, i: nat, nopad: bool, units: Line): (r: Parsed<Line>)
    requires i < |fmt| && !IsSpace(fmt[i], true)
    ensures r.Parsed? ==> i < r.next <= |fmt|
    decreases |fmt| - i
  {
    var head := ParseHead(fmt, i, nopad);
    UnitMoves(fmt, i, head);
    match ParseUnit(fmt, head)
    case Refused(e) => Refused(e)
    case Parsed(u, j) =>
      var k := SkipWs(fmt, j, false);
      if Ch(fmt, k) == 0 || Ch(fmt, k) == NEWLINE then Parsed(units + [u], k)
      else ParseUnits(fmt, k, head.nopad, units + [u])
  }

  /** Every unit takes at least one character, so hxd_compile ends. */
  lemma UnitMoves(fmt: CString, i: nat, head: Head)
    requires i < |fmt| && !IsSpace(fmt[i], true) && i <= head.next <= |fmt|
    ensures match ParseUnit(fmt, head) case Parsed(_, j) => i < j case Refused(_) => true
  {
    if head.next == i {
      var s := Scan(i, false, false, [], 0);
      var t := ScanStep(fmt, head.limit, s);
      assert !t.Done?;
    }
  }

  function ParseLines(fmt: CString, i: nat, nopad: bool, lines: Program): (r: Parsed<Program>)
    requires i <= |fmt|
    decreases |fmt| - i
  {
    var j := SkipWs(fmt, i, true);
    if Ch(fmt, j) == 0 then Parsed(lines, j)
    else
      match ParseUnits(fmt, j, nopad, [])
      case Refused(e) => Refused(e)
      case Parsed(line, k) => ParseLines(fmt, k, nopad, lines + [line])
  }

  /** The whole format; nopad is HXD_NOPADDING of the flags argument. */
  function Parse(fmt: CString, nopad: bool): Parsed<Program> {
    ParseLines(fmt, 0, nopad, [])
  }

  // ------------------------------------------------ what is parsed is valid

  lemma ScanValid(fmt: CString, head: Head)
    requires head.next <= |fmt| && head.loop <= 2147483639 && -1 <= head.limit <= 2147483639
    ensures match ParseUnit(fmt, head) case Parsed(u, _) => ValidUnit(u) case Refused(_) => true
  {
  }

  lemma SkipWsSpaces(fmt: CString, j: nat)
    requires j <= |fmt|
    ensures var k := SkipWs(fmt, j, false);
      Ch(fmt, k) != 0 && Ch(fmt, k) != NEWLINE ==> k < |fmt| && !IsSpace(fmt[k], true)
  {
  }

  lemma {:induction false} UnitsValid(fmt: CString, i: nat, nopad: bool, units: Line)
    requires i < |fmt| && !IsSpace(fmt[i], true)
    requires forall j :: 0 <= j < |units| ==> ValidUnit(units[j])
    ensures var r := ParseUnits(fmt, i, nopad, units);
      r.Parsed? ==> forall j :: 0 <= j < |r.value| ==> ValidUnit(r.value[j])
    decreases |fmt| - i
  {
    hide ValidUnit, ParseUnit;
    var head := ParseHead(fmt, i, nopad);
    UnitMoves(fmt, i, head);
    ScanValid(fmt, head);
    match ParseUnit(fmt, head)
    case Refused(e) =>
    case Parsed(u, j) =>
      var k := SkipWs(fmt, j, false);
      forall n | 0 <= n < |units + [u]| ensures ValidUnit((units + [u])[n]) {
        if n < |units| { assert ValidUnit(units[n]); }
      }
      if Ch(fmt, k) != 0 && Ch(fmt, k) != NEWLINE {
        SkipWsSpaces(fmt, j);
        UnitsValid(fmt, k, head.nopad, units + [u]);
        assert ParseUnits(fmt, i, nopad, units) == ParseUnits(fmt, k, head.nopad, units + [u]);
      } else {
        assert ParseUnits(fmt, i, nopad, units) == Parsed(units + [u], k);
      }
  }

  lemma {:induction false} LinesValid(fmt: CString, i: nat, nopad: bool, lines: Program)
    requires i <= |fmt| && ValidProgram(lines)
    ensures match ParseLines(fmt, i, nopad, lines) case Parsed(prog, _) => ValidProgram(prog) case Refused(_) => true
    decreases |fmt| - i
  {
    var j := SkipWs(fmt, i, true);
    if Ch(fmt, j) != 0 {
      UnitsValid(fmt, j, nopad, []);
      match ParseUnits(fmt, j, nopad, [])
      case Refused(_) =>
      case Parsed(line, k) =>
        forall a, b | 0 <= a < |lines + [line]| && 0 <= b < |(lines + [line])[a]|
          ensures ValidUnit((lines + [line])[a][b])
        {
          if a < |lines| { assert ValidUnit(lines[a][b]); } else {
            assert (lines + [line])[a] == line;
            assert ValidUnit(line[b]);
          }
        }
        LinesValid(fmt, k, nopad, lines + [line]);
    }
  }

  // -------------------------------------------------- the loops that read it

  /** getint */
  method ReadInt(fmt: CString, start: nat) returns (n: Number)
    requires start <= |fmt|
    ensures n == GetInt(fmt, start)
  {
    var i, value := start, -1;
    if IsDigit(Ch(fmt, i)) {
      value := 0;
      var again := true;
      while again
        invariant start <= i <= |fmt| && 0 <= value
        invariant again ==> i < |fmt| && IsDigit(fmt[i]) && value <= INT_LIMIT && GetInt(fmt, start) == Digits(fmt, i, value)
        invariant !again ==> GetInt(fmt, start) == Number(value, i)
        decreases again, |fmt| - i
      {
        value := value * 10 + (fmt[i] - '0' as int);
        i := i + 1;
        again := IsDigit(Ch(fmt, i)) && value <= INT_LIMIT;
      }
    }
    n := Number(value, i);
  }

  /** skipws */
  method SkipSpaces(fmt: CString, start: nat, newlineToo: bool) returns (i: nat)
    requires start <= |fmt|
    ensures i == SkipWs(fmt, start, newlineToo)
  {
    i := start;
    while IsSpace(Ch(fmt, i), newlineToo)
      invariant start <= i <= |fmt| && SkipWs(fmt, start, newlineToo) == SkipWs(fmt, i, newlineToo)
      decreases |fmt| - i
    {
      i := i + 1;
    }
  }

  /** The flag loop of getcnv */
  method ReadFlags(fmt: CString, start: nat) returns (n: Number)
    requires start <= |fmt|
    ensures n == GetFlags(fmt, start, 0)
  {
    var i, flags := start, 0;
    while FlagOf(Ch(fmt, i)) != 0
      invariant start <= i <= |fmt| && 0 <= flags < 32
      invariant GetFlags(fmt, start, 0) == GetFlags(fmt, i, flags)
      decreases |fmt| - i
    {
      flags := OrFlag(flags, FlagOf(Ch(fmt, i)));
      i := i + 1;
    }
    n := Number(flags, i);
  }

  /** getcnv */
  method ReadConversion(fmt: CString, start: nat) returns (c: Conversion)
    requires start <= |fmt|
    ensures c == GetConversion(fmt, start)
  {
    var flags := ReadFlags(fmt, start);
    var width := ReadInt(fmt, flags.next);
    var prec := Number(-1, width.next);
    if Ch(fmt, width.next) == DOT {
      prec := ReadInt(fmt, width.next + 1);
    }
    var ch := Ch(fmt, prec.next);
    if ch == 0 || (ch == 's' as int && prec.value == -1) {
      return NoConversion;
    }
    if ch == UNDERSCORE {
      return UnderscoreConversion(fmt, prec.next + 1, flags.value, width.value, prec.value);
    }
    var bytes := 0;
    if ch == 'c' as int {
      bytes := 1;
    } else if ch == 'd' as int || ch == 'i' as int || ch == 'o' as int || ch == 'u' as int
           || ch == 'X' as int || ch == 'x' as int {
      bytes := 4;
    } else if ch == 's' as int {
      bytes := prec.value;
    }
    c := Conversion(ch, flags.value, width.value, prec.value, bytes, prec.next + 1);
  }

  /** The switch of emit_unit */
  method ReadTurn(fmt: CString, limit: int, s: Scan) returns (t: Scanned)
    requires ScanOk(fmt, limit, s)
    ensures t == ScanStep(fmt, limit, s)
  {
    hide GetConversion, ScanOk;
    var ch := Ch(fmt, s.i);
    if ch == 0 || ((ch == BLANK || ch == TAB || ch == NEWLINE) && !s.quoted && !s.escaped) {
      return Done(s);
    }
    if ch == PERCENT && !s.escaped {
      var c := ReadConversion(fmt, s.i + 1);
      if c.NoConversion? {
        return Bad(FORMAT);
      } else if c.fc == PERCENT {
        return More(CopyOut(s, PERCENT, c.next));
      }
      var bytes := c.bytes;
      if limit >= 0 && bytes > 0 {
        bytes := Min(limit - ItemsBytes(s.items), bytes);
        if bytes == 0 {
          return Bad(DRAINED);
        }
      }
      t := More(Scan(c.next, s.quoted, false, s.items + [Conv(c.flags, c.width, c.prec, c.fc, bytes)], 0));
    } else if ch == QUOTE && !s.escaped {
      t := More(s.(i := s.i + 1, quoted := !s.quoted));
    } else if ch == BACKSLASH && !s.escaped {
      t := More(s.(i := s.i + 1, escaped := true));
    } else {
      t := More(CopyOut(s, if s.escaped then Unescape(ch) else ch, s.i + 1));
    }
  }

  /** The count in front of a unit, as hxd_compile reads it */
  method ReadHead(fmt: CString, start: nat, nopad: bool) returns (h: Head)
    requires start <= |fmt|
    ensures h == ParseHead(fmt, start, nopad)
  {
    var loop := ReadInt(fmt, start);
    var i := SkipSpaces(fmt, loop.next, false);
    var limit, short := -1, nopad;
    if Ch(fmt, i) == SLASH {
      var n := ReadInt(fmt, i + 1);
      i, limit := n.next, n.value;
      if Ch(fmt, i) == QUESTION {
        short, i := true, i + 1;
      }
    }
    i := SkipSpaces(fmt, i, false);
    h := Head(if loop.value < 0 then 1 else loop.value, limit, short, i);
  }

  /** What getint reads from a numeral: all its digits, if they make no more than INT_MAX - 8. */
  lemma {:induction false} GetIntReadsNumeral(fmt: CString, i: nat, v: nat, n: nat)
    requires i + n <= |fmt| && n >= 1 && !IsDigit(Ch(fmt, i + n))
    requires forall k :: i <= k < i + n ==> IsDigit(fmt[k])
    requires v <= INT_LIMIT && Numeral(fmt[i..i + n], v) <= 2147483639
    ensures Digits(fmt, i, v) == Number(Numeral(fmt[i..i + n], v), i + n)
    decreases n
  {
    var w := v * 10 + (fmt[i] - '0' as int);
    assert fmt[i..i + n][1..] == fmt[i + 1..i + n];
    if n > 1 {
      NumeralGrows(fmt[i + 1..i + n], w);
      GetIntReadsNumeral(fmt, i + 1, w, n - 1);
    }
  }

  /** The value of a decimal numeral, continued from v. */
  function Numeral(digits: seq<byte>, v: int): int {
    if digits == [] then v else Numeral(digits[1..], v * 10 + (digits[0] - '0' as int))
  }

  lemma {:induction false} NumeralGrows(digits: seq<byte>, v: nat)
    requires forall k :: 0 <= k < |digits| ==> IsDigit(digits[k])
    ensures Numeral(digits, v) >= v && (digits != [] ==> Numeral(digits, v) >= v * 10)
  {
    if digits != [] {
      NumeralGrows(digits[1..], v * 10 + (digits[0] - '0' as int));
    }
  }
}
