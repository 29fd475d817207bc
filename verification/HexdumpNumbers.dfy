/** Numbers as their digits: what the conversions of the predefined formats show for a byte, a word
    and an address. */
module HexdumpNumbers {
  import opened Arithmetic

  import opened HexdumpMachine
  import opened HexdumpFormat
  import opened HexdumpReference
  import opened HexdumpRender
  import opened HexdumpFast
  import opened HexdumpWords

  const DIGITS: string := "0123456789abcdef"

  function DigitOf(n: nat): (d: byte)
    requires n < 16
    ensures '0' as int <= d <= 'f' as int
  {
    DIGITS[n] as int % 256
  }

  function Power(base: nat, n: nat): nat {
    if n == 0 then 1 else base * Power(base, n - 1)
  }

  /** The low n digits of a number, by their places */
  function Places(base: nat, n: nat, a: nat): (r: seq<byte>)
    requires 2 <= base <= 16
    ensures |r| == n
  {
    seq(n, i requires 0 <= i < n => PlaceDigit(base, n - 1 - i, a))
  }

  /** The digit worth base to the k */
  function PlaceDigit(base: nat, k: nat, a: nat): (d: byte)
    requires 2 <= base <= 16
    ensures '0' as int <= d <= 'f' as int
  {
    PowerGrows(base, k);
    DigitOf(a / Power(base, k) % base)
  }

  lemma {:induction false} PowerGrows(base: nat, n: nat)
    requires base >= 1
    ensures Power(base, n) >= 1
  {
    if n > 0 {
      PowerGrows(base, n - 1);
      assert base * Power(base, n - 1) >= 1 * Power(base, n - 1);
    }
  }

  lemma DivideTwice(a: nat, base: nat, m: nat)
    requires base >= 1 && m >= 1
    ensures base * m >= 1 && a / (base * m) == a / base / m
  {
    var q, r := a / base, a % base;
    var p, s := q / m, q % m;
    assert a == base * q + r && q == m * p + s;
    assert a == (base * m) * p + (base * s + r) by { assert base * (m * p) == (base * m) * p; }
    assert base * s + r < base * m by { Gap(base, s, m); }
    Quotient(a, base * m, p, base * s + r);
  }

  /** The last digit, and the digits before it */
  lemma PlacesLast(base: nat, n: nat, a: nat)
    requires 2 <= base <= 16 && n >= 1
    ensures Places(base, n, a) == Places(base, n - 1, a / base) + [DigitOf(a % base)]
  {
    hide DigitOf;
    forall i | 0 <= i < n
      ensures Places(base, n, a)[i] == (Places(base, n - 1, a / base) + [DigitOf(a % base)])[i]
    {
      var k := n - 1 - i;
      assert Places(base, n, a)[i] == PlaceDigit(base, k, a);
      if k > 0 {
        HigherDigit(base, k, a);
        assert Places(base, n - 1, a / base)[i] == PlaceDigit(base, k - 1, a / base);
      } else {
        LowestDigit(base, a);
      }
    }
  }

  lemma HigherDigit(base: nat, k: nat, a: nat)
    requires 2 <= base <= 16 && k > 0
    ensures PlaceDigit(base, k, a) == PlaceDigit(base, k - 1, a / base)
  {
    hide DigitOf;
    PowerGrows(base, k - 1);
    DivideTwice(a, base, Power(base, k - 1));
  }

  lemma LowestDigit(base: nat, a: nat)
    requires 2 <= base <= 16
    ensures PlaceDigit(base, 0, a) == DigitOf(a % base)
  {
    hide DigitOf;
    assert Power(base, 0) == 1;
  }

  lemma HexDigitIs(n: nat)
    requires n < 16
    ensures HexDigit(n) == DigitOf(n)
  {
  }

  /** The fixed form of hexadecimal numbers */
  lemma {:induction false} FixedIsPlaces(n: nat, a: nat)
    ensures FixedHex(n, a) == Places(16, n, a)
  {
    hide HexDigit, DigitOf, Places;
    if n == 0 {
      assert Places(16, 0, a) == [];
    } else {
      FixedIsPlaces(n - 1, a / 16);
      PlacesLast(16, n, a);
      HexDigitIs(a % 16);
    }
  }

  lemma HexByteIs(b: byte)
    ensures HexByte(b) == Places(16, 2, b)
  {
    hide Places, HexByte, FixedHex;
    HexByteIsFixed(b);
    FixedIsPlaces(2, b);
  }

  /** Both forms of an address, whatever its size: its low digits */
  lemma AddressIsPlaces(a: nat)
    ensures Addr7(a) == Places(16, 7, a) && Addr8(a) == Places(16, 8, a)
  {
    hide Places, HexByte, FixedHex, HexDigit;
    var h := a / 0x100_0000;
    FixedSix(1, a);
    FixedSix(2, a);
    FixedByte(0, h);
    OneDigit(h);
    NoDigit(h / 256);
    assert [] + HexByte(h) == HexByte(h);
    FixedIsPlaces(7, a);
    FixedIsPlaces(8, a);
  }

  lemma OneDigit(h: nat)
    ensures FixedHex(1, h) == [HexDigit(h % 16)]
  {
    hide HexDigit;
    assert FixedHex(0, h / 16) == [];
  }

  lemma NoDigit(h: nat)
    ensures FixedHex(0, h) == []
  {
  }

  // --------------------------------- %o, %u and %s of ISO C, section 7.21.6.1

  /** The shortest form of a number */
  function Numerals(base: nat, u: nat): (r: seq<byte>)
    requires 2 <= base <= 16
    ensures |r| >= 1
  {
    if u < base then [DigitOf(u)]
    else
      Shrinks(u, base);
      Numerals(base, u / base) + [DigitOf(u % base)]
  }

  lemma Shrinks(u: nat, base: nat)
    requires 2 <= base <= u
    ensures u / base < u
  {
    var q := u / base;
    assert u == base * q + u % base;
    assert base * q == 2 * q + (base - 2) * q;
    Product(base - 2, q);
  }

  lemma Product(a: nat, b: nat)
    ensures a * b >= 0
  {
  }

  /** A number without the prefix # asks for */
  function PrintIn(base: nat, flags: int, width: int, prec: int, u: nat): seq<byte>
    requires 2 <= base <= 16
  {
    var digits := if prec == 0 && u == 0 then [] else Fill('0', prec - |Numerals(base, u)|) + Numerals(base, u);
    if Has(flags, F_ZERO) && !Has(flags, F_MINUS) && prec < 0 then Fill('0', width - |digits|) + digits
    else Justify(flags, width, digits)
  }

  ghost predicate PrintsNumber(printf: Printf, base: nat, letter: char, f: int, w: int, p: int, word: int)
    requires 2 <= base <= 16 && letter < 128 as char
  {
    !Has(f, F_HASH) ==> printf(f, w, p, FC1(letter), Word(word)) == Printed(PrintIn(base, f, w, p, ToUint32(word)))
  }

  /** A C string ends in front of its first NUL. */
  function BeforeNul(s: seq<byte>): seq<byte> {
    if s == [] || s[0] == 0 then [] else [s[0]] + BeforeNul(s[1..])
  }

  ghost predicate PrintsText(printf: Printf, f: int, w: int, p: nat, text: seq<byte>) {
    printf(f, w, p, FC1('s'), Text(text)) == Printed(Justify(f, w, BeforeNul(text[..Min(p, |text|)])))
  }

  /** snprintf renders %x, %c, %o, %u and %s as the C standard says. */
  ghost predicate FullPrintf(printf: Printf) {
    && StandardPrintf(printf)
    && (forall f, w, p, word :: PrintsNumber(printf, 8, 'o', f, w, p, word))
    && (forall f, w, p, word :: PrintsNumber(printf, 10, 'u', f, w, p, word))
    && (forall f, w, p: nat, text :: PrintsText(printf, f, w, p, text))
  }

  lemma {:induction false} ZeroPlaces(base: nat, n: nat)
    requires 2 <= base <= 16
    ensures Places(base, n, 0) == Fill('0', n)
  {
    hide Places;
    if n == 0 {
      assert Places(base, 0, 0) == [];
    } else {
      ZeroPlaces(base, n - 1);
      PlacesLast(base, n, 0);
      assert Fill('0', n) == Fill('0', n - 1) + [DigitOf(0)];
    }
  }

  /** Zeros in front of the shortest form */
  lemma {:induction false} PaddedIsPlaces(base: nat, n: nat, u: nat)
    requires 2 <= base <= 16 && n >= 1 && u < Power(base, n)
    ensures |Numerals(base, u)| <= n && Fill('0', n - |Numerals(base, u)|) + Numerals(base, u) == Places(base, n, u)
    decreases n
  {
    hide Places, DigitOf;
    PlacesLast(base, n, u);
    if u < base {
      SmallRemainder(u, base);
      ZeroPlaces(base, n - 1);
    } else {
      PowerGrows(base, n - 1);
      QuotientFits(u, base, Power(base, n - 1));
      PaddedIsPlaces(base, n - 1, u / base);
      var z, t := Fill('0', n - |Numerals(base, u)|), Numerals(base, u / base);
      assert z + Numerals(base, u) == (z + t) + [DigitOf(u % base)];
    }
  }

  lemma SmallRemainder(u: nat, base: nat)
    requires u < base
    ensures u % base == u && u / base == 0
  {
  }

  lemma QuotientFits(u: nat, base: nat, m: nat)
    requires base >= 1 && u < base * m
    ensures u / base < m
  {
    var q := u / base;
    assert q >= m ==> base * q >= base * m;
  }

  // ----------------------------------------------------- numbers of one or two bytes

  /** The number one or two bytes make */
  function Value(bigEndian: bool, bytes: seq<byte>): nat
    requires 1 <= |bytes| <= 2
  {
    if |bytes| == 1 then bytes[0] else if bigEndian then Pair(bytes[0], bytes[1]) else Pair(bytes[1], bytes[0])
  }

  function Pair(high: byte, low: byte): nat { high * 256 + low }

  lemma ValueIsWord(bigEndian: bool, bytes: seq<byte>)
    requires 1 <= |bytes| <= 2
    ensures ToUint32(LoadWord(bigEndian, bytes)) == Value(bigEndian, bytes) < Power256(|bytes|)
  {
    hide WordBE, LoadWord, ToUint32, Power256;
    WordIs(bigEndian, bytes);
    var s := InOrder(bigEndian, bytes);
    if |bytes| == 1 { BigOne(s); } else { BigTwo(s); }
  }

  lemma BigOne(s: seq<byte>)
    requires |s| == 1
    ensures WordBE(s) == s[0]
  {
    assert s[..0] == [];
    assert WordBE([]) == 0;
  }

  lemma BigTwo(s: seq<byte>)
    requires |s| == 2
    ensures WordBE(s) == Pair(s[0], s[1])
  {
    BigOne(s[..1]);
  }

  /** %04x, %06o, %05u and the like: zero-padded to a width every value of the bytes has room in */
  datatype NumberKind = NumberKind(base: nat, letter: char, width: nat, bytes: nat)

  predicate Shown(k: NumberKind) {
    k == NumberKind(16, 'x', 4, 2) || k == NumberKind(8, 'o', 6, 2) || k == NumberKind(10, 'u', 5, 2) || k == NumberKind(8, 'o', 3, 1)
  }

  function NumberItem(k: NumberKind): Item
    requires Shown(k)
  {
    Conv(F_ZERO, k.width, -1, FC1(k.letter), k.bytes)
  }

  lemma NumberItemIs(k: NumberKind)
    requires Shown(k)
    ensures var item := NumberItem(k);
      && ValidItem(item) && ReadBytes(item) == k.bytes && KindOf(item).General? && 2 <= k.base <= 16
      && Loaded(F_ZERO) == F_ZERO && Loaded(k.width) == k.width && Loaded(-1) == -1 && Loaded(item.fc) == item.fc && Loaded(k.bytes) == k.bytes
      && PrintfFlags(F_ZERO) == F_ZERO && Has(F_ZERO, F_ZERO) && !Has(F_ZERO, F_MINUS) && !Has(F_ZERO, F_HASH)
  {
  }

  lemma Room(k: NumberKind)
    requires Shown(k)
    ensures Power256(k.bytes) <= Power(k.base, k.width)
  {
    PowersOf256();
    assert Power(16, 2) == 256 && Power(8, 2) == 64 && Power(10, 2) == 100;
    assert Power(16, 4) == 0x1_0000 by { assert Power(16, 3) == 16 * 256; }
    assert Power(8, 3) == 512;
    assert Power(8, 6) == 8 * (8 * (8 * 512)) by { assert Power(8, 4) == 8 * 512; }
    assert Power(10, 5) == 100000 by { assert Power(10, 3) == 1000; }
  }

  /** The conversion of a small word */
  lemma NumberConverts(su: Setup, inp: nat, k: NumberKind, word: int)
    requires FullPrintf(su.printf) && Shown(k) && inp <= |su.block| && ToUint32(word) < Power256(k.bytes)
    ensures VmConv(su, inp, F_ZERO, k.width, -1, FC1(k.letter), word) == Converted(Places(k.base, k.width, ToUint32(word)))
  {
    hide ToUint32, ToInt32, Places, Power, Power256, Numerals, VmConv, PrintIn, PrintsNumber;
    var u := ToUint32(word);
    if k.letter == 'x' {
      NumberKindX(su, inp, word);
    } else {
      var arg := if k.letter == 'u' then ToUint32(word) else ToInt32(word);
      Int32Bits(word);
      Uint32Twice(word);
      PrintsPlaces(su.printf, k, arg);
      ConvIsPrintf(su, inp, k, word);
    }
  }

  /** What printf makes of a zero-padded number */
  lemma PrintsPlaces(printf: Printf, k: NumberKind, word: int)
    requires FullPrintf(printf) && Shown(k) && k.letter != 'x' && ToUint32(word) < Power256(k.bytes)
    ensures printf(F_ZERO, k.width, -1, FC1(k.letter), Word(word)) == Printed(Places(k.base, k.width, ToUint32(word)))
  {
    hide ToUint32, Places, Power, Power256, Numerals, Has, StandardPrintf;
    NumberItemIs(k);
    Room(k);
    PaddedIsPlaces(k.base, k.width, ToUint32(word));
    assert PrintsNumber(printf, k.base, k.letter, F_ZERO, k.width, -1, word);
    NoPrecision(Numerals(k.base, ToUint32(word)));
  }

  lemma ConvIsPrintf(su: Setup, inp: nat, k: NumberKind, word: int)
    requires Shown(k) && k.letter != 'x' && inp <= |su.block|
    ensures VmConv(su, inp, F_ZERO, k.width, -1, FC1(k.letter), word)
      == Checked(su.printf(F_ZERO, k.width, -1, FC1(k.letter), Word(if k.letter == 'u' then ToUint32(word) else ToInt32(word))))
  {
    hide ToUint32, ToInt32;
    NumberItemIs(k);
  }

  lemma NoPrecision(digits: seq<byte>)
    ensures Fill('0', -1 - |digits|) + digits == digits
  {
  }

  lemma Uint32Twice(word: int)
    ensures ToUint32(ToUint32(word)) == ToUint32(word)
  {
  }

  lemma NumberKindX(su: Setup, inp: nat, word: int)
    requires StandardPrintf(su.printf) && inp <= |su.block| && ToUint32(word) < Power256(2)
    ensures VmConv(su, inp, F_ZERO, 4, -1, FC1('x'), word) == Converted(Places(16, 4, ToUint32(word)))
  {
    hide ToUint32, Places, FixedHex, VmConv, Power16, Power256;
    Powers16And256(2);
    ConvWord(su, inp, 2, word);
    FixedIsPlaces(4, ToUint32(word));
  }

  /** A number in the input, or blanks behind its end */
  lemma NumberShows(su: Setup, k: NumberKind, s: State)
    requires FullPrintf(su.printf) && Shown(k) && Inside(su, s)
    ensures var bytes := Fetched(su, s.inp, k.bytes);
      && |bytes| <= k.bytes <= 2 && 2 <= k.base <= 16
      && DoItem(su, COMPILED, NumberItem(k), s)
        == Fine(State(s.inp + |bytes|, s.out + if bytes == [] then Spaces(k.width) else Places(k.base, k.width, Value(su.bigEndian, bytes))))
  {
    hide VmConv, LoadWord, Places, Power256, FullPrintf, KindOf, Loaded, ToUint32, Value, ReadBytes;
    NumberItemIs(k);
    var bytes := Fetched(su, s.inp, k.bytes);
    if bytes != [] {
      ValueIsWord(su.bigEndian, bytes);
      Power256Monotone(|bytes|, k.bytes);
      NumberConverts(su, s.inp + |bytes|, k, LoadWord(su.bigEndian, bytes));
    }
  }

  // --------------------------------------------------------- single bytes

  /** %02x */
  const HEX_BYTE := HexItem(1)

  lemma HexByteShows(su: Setup, s: State)
    requires StandardPrintf(su.printf) && Inside(su, s)
    ensures DoItem(su, COMPILED, HEX_BYTE, s)
      == if s.inp == |su.block| then Fine(State(s.inp, s.out + Spaces(2)))
         else Fine(State(s.inp + 1, s.out + Places(16, 2, su.block[s.inp])))
  {
    hide Places, HexByte;
    HexItemIs(1);
    if s.inp < |su.block| { HexByteIs(su.block[s.inp]); }
  }

  /** %_p */
  const PRINTABLE := Conv(0, -1, -1, FC2('p'), 1)

  /** A byte that can be printed stands for itself, any other for a point. */
  function PrintableText(b: byte): seq<byte> { if 0x20 <= b <= 0x7E then [b] else ['.' as int] }

  lemma PrintableShows(su: Setup, s: State)
    requires Inside(su, s)
    ensures DoItem(su, COMPILED, PRINTABLE, s)
      == if s.inp == |su.block| then Fine(State(s.inp, s.out + []))
         else Fine(State(s.inp + 1, s.out + PrintableText(su.block[s.inp])))
  {
    assert KindOf(PRINTABLE).Print1?;
  }

  /** %3_c */
  const LABEL := Conv(0, 3, -1, FC2('c'), 1)

  /** A byte as C writes it: itself, its escape, or three octal digits */
  function LabelText(b: byte): (t: seq<byte>)
    ensures 1 <= |t| <= 3 && 0 !in t
  {
    if 0x20 <= b <= 0x7E then [b]
    else if b == 0 then ['\\' as int, '0' as int]
    else if 7 <= b <= 13 then ['\\' as int, ESCAPES[b - 7]]
    else Places(8, 3, b)
  }

  lemma LabelIs(b: byte)
    ensures ToOctal(b) == LabelText(b)
  {
    hide Places;
    if !(0x20 <= b <= 0x7E) && b != 0 && !(7 <= b <= 13) {
      OctalIs(b);
      assert ToOctal(b) == [OctalDigit(b / 64 % 8), OctalDigit(b / 8 % 8), OctalDigit(b % 8)];
    }
  }

  lemma OctalIs(b: byte)
    ensures Places(8, 3, b) == [OctalDigit(b / 64 % 8), OctalDigit(b / 8 % 8), OctalDigit(b % 8)]
  {
    hide Places, DigitOf, OctalDigit;
    PlacesLast(8, 3, b);
    PlacesLast(8, 2, b / 8);
    PlacesLast(8, 1, b / 8 / 8);
    assert Places(8, 0, b / 8 / 8 / 8) == [];
    assert b / 8 / 8 == b / 64;
    OctalDigitIs(b / 64 % 8);
    OctalDigitIs(b / 8 % 8);
    OctalDigitIs(b % 8);
  }

  lemma OctalDigitIs(n: nat)
    requires n < 8
    ensures DigitOf(n) == OctalDigit(n)
  {
  }

  /** How much of a label a precision leaves */
  function LabelLimit(prec: int): nat { if prec == 1 || prec == 2 then prec else 3 }

  lemma {:induction false} NoNul(s: seq<byte>)
    requires 0 !in s
    ensures BeforeNul(s) == s
  {
    if s != [] {
      NoNul(s[1..]);
      assert s == [s[0]] + s[1..];
    }
  }

  /** %_c, with any flags, width and precision */
  lemma LabelShort(su: Setup, inp: nat, flags: int, width: int, prec: int, b: byte)
    requires FullPrintf(su.printf) && inp <= |su.block|
    ensures var t := LabelText(b);
      VmConv(su, inp, flags, width, prec, FC2('c'), b)
        == Checked(Printed(Justify(PrintfFlags(flags), Max(width, 0), t[..Min(LabelLimit(prec), |t|)])))
  {
    hide LabelText, ToOctal, PrintfFlags, Justify, StandardPrintf, PrintsNumber;
    LabelIs(b);
    var t, n := LabelText(b), LabelLimit(prec);
    assert PrintsText(su.printf, PrintfFlags(flags), Max(width, 0), n, t);
    NoNul(t[..Min(n, |t|)]);
  }

  /** The names of ISO 646 for the control characters */
  function ControlName(b: nat): (s: string)
    requires b < 32
    ensures 2 <= |s| <= 3
  {
    match b
    case 0 => "nul" case 1 => "soh" case 2 => "stx" case 3 => "etx"
    case 4 => "eot" case 5 => "enq" case 6 => "ack" case 7 => "bel"
    case 8 => "bs" case 9 => "ht" case 10 => "lf" case 11 => "vt"
    case 12 => "ff" case 13 => "cr" case 14 => "so" case 15 => "si"
    case 16 => "dle" case 17 => "dc1" case 18 => "dc2" case 19 => "dc3"
    case 20 => "dc4" case 21 => "nak" case 22 => "syn" case 23 => "etb"
    case 24 => "can" case 25 => "em" case 26 => "sub" case 27 => "esc"
    case 28 => "fs" case 29 => "gs" case 30 => "rs" case _ => "us"
  }

  /** A byte as it is named: itself, its control name, or two hexadecimal digits */
  function NameText(b: byte): (t: seq<byte>)
    ensures 1 <= |t| <= 3
  {
    if b < 32 then Ascii(ControlName(b)) else if b == 127 then Ascii("del") else if b < 127 then [b] else Places(16, 2, b)
  }

  lemma NameIs(b: byte)
    requires b < 32
    ensures CONTROL_NAMES[b] == ControlName(b)
  {
  }

  lemma NamesAre(b: byte)
    ensures ToShort(b) == NameText(b)
  {
    hide Places, ControlName, HexByte;
    if b < 32 { NameIs(b); } else if b > 127 { HexByteIs(b); }
  }

  /** %_u, with any flags, width and precision */
  lemma NameShort(su: Setup, inp: nat, flags: int, width: int, prec: int, b: byte)
    requires FullPrintf(su.printf) && inp <= |su.block|
    ensures var t := NameText(b);
      VmConv(su, inp, flags, width, prec, FC2('u'), b)
        == Checked(Printed(Justify(PrintfFlags(flags), Max(width, 0), t[..Min(LabelLimit(prec), |t|)])))
  {
    hide NameText, ToShort, PrintfFlags, Justify, StandardPrintf, PrintsNumber;
    NamesAre(b);
    var t, n := NameText(b), LabelLimit(prec);
    assert PrintsText(su.printf, PrintfFlags(flags), Max(width, 0), n, t);
    NamesHaveNoNul(b);
    assert 0 !in t[..Min(n, |t|)];
    NoNul(t[..Min(n, |t|)]);
  }

  lemma NamesHaveNoNul(b: byte)
    ensures 0 !in NameText(b)
  {
    hide ControlName, Places, Ascii;
    if b < 32 {
      LettersOnly(b);
      AsciiLetters(ControlName(b));
    } else if b == 127 {
      AsciiLetters("del");
    } else if b > 127 {
      PlacesNoNul(16, 2, b);
    }
  }

  lemma AsciiLetters(s: string)
    requires forall k :: 0 <= k < |s| ==> '0' <= s[k] <= 'z'
    ensures 0 !in Ascii(s)
  {
  }

  lemma PlacesNoNul(base: nat, n: nat, a: nat)
    requires 2 <= base <= 16
    ensures 0 !in Places(base, n, a)
  {
    var t := Places(base, n, a);
    forall i | 0 <= i < n
      ensures t[i] != 0
    {
      var d := PlaceDigit(base, n - 1 - i, a);
      assert t[i] == d;
    }
  }

  lemma LettersOnly(b: nat)
    requires b < 32
    ensures forall k :: 0 <= k < |ControlName(b)| ==> '0' <= ControlName(b)[k] <= 'z'
  {
  }

  /** %s: as many bytes of the block as the precision says, or all that are left, up to a NUL */
  lemma TextShort(su: Setup, inp: nat, flags: int, width: int, prec: int, word: int)
    requires FullPrintf(su.printf) && inp <= |su.block|
    ensures var n := if 1 <= prec <= |su.block| - inp then prec else |su.block| - inp;
      VmConv(su, inp, flags, width, prec, FC1('s'), word)
        == Checked(Printed(Justify(PrintfFlags(flags), Max(width, 0), BeforeNul(su.block[inp..inp + n]))))
  {
    hide PrintfFlags, Justify, BeforeNul, StandardPrintf, PrintsNumber;
    var n: nat := if 1 <= prec <= |su.block| - inp then prec else |su.block| - inp;
    assert PrintsText(su.printf, PrintfFlags(flags), Max(width, 0), n, su.block[inp..]);
    assert su.block[inp..][..n] == su.block[inp..inp + n];
  }

  /** The blank flag of the format is never handed on: no conversion prints differently for it. */
  lemma BlankFlagIgnored(su: Setup, inp: nat, flags: int, width: int, prec: int, fc: int, word: int)
    requires inp <= |su.block| && 0 <= flags < 32 && Has(flags, F_SPACE)
    ensures VmConv(su, inp, flags, width, prec, fc, word) == VmConv(su, inp, flags - F_SPACE, width, prec, fc, word)
    ensures Has(PrintfFlags(flags), F_PLUS) == Has(flags, F_PLUS) && !Has(PrintfFlags(flags), F_SPACE)
  {
    BlankFlag(flags);
    hide PrintfFlags, Checked, ToOctal, ToShort;
  }

  lemma BlankFlag(flags: int)
    requires 0 <= flags < 32 && Has(flags, F_SPACE)
    ensures PrintfFlags(flags) == PrintfFlags(flags - F_SPACE)
    ensures Has(PrintfFlags(flags), F_PLUS) == Has(flags, F_PLUS) && !Has(PrintfFlags(flags), F_SPACE)
  {
  }

  /** %_ad, %_ao and %_ax hand printf the int with the low 32 bits of the address of the next byte. */
  lemma AddressArgument(su: Setup, inp: nat, flags: int, width: int, prec: int, letter: char, word: int)
    requires inp <= |su.block| && (letter == 'd' || letter == 'o' || letter == 'x')
    ensures var n := (su.address + inp) % 0x1_0000_0000;
      VmConv(su, inp, flags, width, prec, FC2(letter), word)
        == Checked(su.printf(PrintfFlags(flags), Max(width, 0), prec, FC1(letter), Word(if n < 0x8000_0000 then n else n - 0x1_0000_0000)))
  {
    hide PrintfFlags;
    SignedWord(su.address + inp);
  }

  lemma LabelItemIs()
    ensures ReadBytes(LABEL) == 1 && KindOf(LABEL).General? && PrintfFlags(0) == 0 && !Has(0, F_MINUS)
    ensures Loaded(0) == 0 && Loaded(3) == 3 && Loaded(-1) == -1 && Loaded(FC2('c')) == FC2('c') && Loaded(1) == 1
  {
  }

  lemma LabelShows(su: Setup, s: State)
    requires FullPrintf(su.printf) && Inside(su, s)
    ensures DoItem(su, COMPILED, LABEL, s)
      == if s.inp == |su.block| then Fine(State(s.inp, s.out + Spaces(3)))
         else
           var shown := LabelText(su.block[s.inp]);
           Fine(State(s.inp + 1, s.out + (Spaces(3 - |shown|) + shown)))
  {
    hide VmConv, LoadWord, FullPrintf, KindOf, Loaded, LabelText, ReadBytes;
    LabelItemIs();
    if s.inp < |su.block| {
      ReadOne(su, s);
      LabelConverts(su, s.inp + 1, su.block[s.inp]);
    }
  }

  lemma LabelConverts(su: Setup, inp: nat, b: byte)
    requires FullPrintf(su.printf) && inp <= |su.block|
    ensures VmConv(su, inp, 0, 3, -1, FC2('c'), b) == Converted(Spaces(3 - |LabelText(b)|) + LabelText(b))
  {
    hide LabelText, VmConv, Has, PrintfFlags;
    LabelItemIs();
    LabelShort(su, inp, 0, 3, -1, b);
    var t := LabelText(b);
    assert t[..Min(3, |t|)] == t;
    assert Fill(' ', 3 - |t|) == Spaces(3 - |t|);
  }

  // ------------------------------------------------------------- addresses

  /** %07.7_ax, %08.8_ax and %07.7_ao */
  const ADDRESS7 := Conv(F_ZERO, 7, 7, FC2('x'), 0)
  const ADDRESS8 := Conv(F_ZERO, 8, 8, FC2('x'), 0)
  const OCTAL_ADDRESS := Conv(F_ZERO, 7, 7, FC2('o'), 0)

  lemma AddressShows(su: Setup, s: State)
    requires Inside(su, s)
    ensures DoItem(su, COMPILED, ADDRESS7, s) == Fine(State(s.inp, s.out + Places(16, 7, su.address + s.inp)))
    ensures DoItem(su, COMPILED, ADDRESS8, s) == Fine(State(s.inp, s.out + Places(16, 8, su.address + s.inp)))
  {
    hide Places, Addr7, Addr8;
    AddressIsPlaces(su.address + s.inp);
    assert KindOf(ADDRESS7).Addr7Kind? && KindOf(ADDRESS8).Addr8Kind?;
  }

  /** At least seven octal digits of the address in 32 bits */
  function OctalAddress(a: nat): seq<byte> {
    var u := ToUint32(a);
    if u < 0x20_0000 then Places(8, 7, u) else Numerals(8, u)
  }

  lemma OctalItemIs()
    ensures ReadBytes(OCTAL_ADDRESS) == 0 && KindOf(OCTAL_ADDRESS).General? && PrintfFlags(F_ZERO) == F_ZERO
    ensures Loaded(F_ZERO) == F_ZERO && Loaded(7) == 7 && Loaded(FC2('o')) == FC2('o') && Loaded(0) == 0
    ensures Has(F_ZERO, F_ZERO) && !Has(F_ZERO, F_MINUS) && !Has(F_ZERO, F_HASH)
  {
  }

  lemma {:induction false} NumeralsLong(base: nat, n: nat, u: nat)
    requires 2 <= base <= 16 && u >= Power(base, n)
    ensures |Numerals(base, u)| > n
  {
    hide DigitOf;
    if n > 0 {
      PowerGrows(base, n - 1);
      assert base * Power(base, n - 1) >= base * 1;
      QuotientReaches(u, base, Power(base, n - 1));
      NumeralsLong(base, n - 1, u / base);
    }
  }

  lemma QuotientReaches(u: nat, base: nat, m: nat)
    requires base >= 1 && u >= base * m
    ensures u / base >= m
  {
    var q := u / base;
    if q < m { Gap(base, q, m); }
  }

  lemma {:induction false} NumeralsFit(base: nat, n: nat, u: nat)
    requires 2 <= base <= 16 && n >= 1 && u < Power(base, n)
    ensures |Numerals(base, u)| <= n
  {
    hide Places;
    PaddedIsPlaces(base, n, u);
  }

  lemma Eights()
    ensures Power(8, 7) == 0x20_0000 && Power(8, 11) == 0x2_0000_0000
  {
    assert Power(8, 3) == 512;
    assert Power(8, 5) == 64 * 512;
    assert Power(8, 7) == 64 * (64 * 512);
    assert Power(8, 9) == 64 * (64 * (64 * 512));
  }

  lemma OctalConverts(su: Setup, inp: nat, word: int)
    requires FullPrintf(su.printf) && inp <= |su.block|
    ensures VmConv(su, inp, F_ZERO, 7, 7, FC2('o'), word) == Converted(OctalAddress(su.address + inp))
  {
    hide ToUint32, ToInt32, PrintIn, Has, PrintfFlags, StandardPrintf, OctalAddress;
    OctalItemIs();
    var here := su.address + inp;
    Int32Bits(here);
    assert PrintsNumber(su.printf, 8, 'o', F_ZERO, 7, 7, ToInt32(here));
    OctalDigits(here);
  }

  /** At least seven digits, and never more than eleven */
  lemma OctalDigits(a: nat)
    ensures PrintIn(8, F_ZERO, 7, 7, ToUint32(a)) == OctalAddress(a) && |OctalAddress(a)| <= 11
  {
    hide ToUint32, Places, Power, Numerals, Has;
    OctalItemIs();
    var u := ToUint32(a);
    Eights();
    var digits := Fill('0', 7 - |Numerals(8, u)|) + Numerals(8, u);
    NumeralsFit(8, 11, u);
    if u < 0x20_0000 {
      PaddedIsPlaces(8, 7, u);
    } else {
      NumeralsLong(8, 7, u);
      assert digits == Numerals(8, u);
    }
    assert Fill(' ', 7 - |digits|) + digits == digits;
  }

  lemma OctalAddressShows(su: Setup, s: State)
    requires FullPrintf(su.printf) && Inside(su, s)
    ensures DoItem(su, COMPILED, OCTAL_ADDRESS, s) == Fine(State(s.inp, s.out + OctalAddress(su.address + s.inp)))
  {
    hide VmConv, LoadWord, FullPrintf, KindOf, Loaded, OctalAddress, ReadBytes;
    OctalItemIs();
    OctalConverts(su, s.inp, LoadWord(su.bigEndian, su.block[s.inp..s.inp]));
  }
}
