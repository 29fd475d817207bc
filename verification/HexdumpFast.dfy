/** The one-opcode conversions against the generic path through printf, and what a
    format means to its reader when all of them agree. */
module HexdumpFast {
  import opened Arithmetic

  import opened HexdumpMachine
  import opened HexdumpFormat
  import opened HexdumpReference
  import opened HexdumpCorrect

  // ------------------------------------- %x and %c of ISO C, section 7.21.6.1

  function HexDigits(u: nat): (r: seq<byte>)
    ensures |r| >= 1
  {
    if u < 16 then [HexDigit(u)] else HexDigits(u / 16) + [HexDigit(u % 16)]
  }

  function Fill(c: char, n: int): (r: seq<byte>)
    ensures |r| == Max(n, 0)
  {
    seq(Max(n, 0), _ => ToByte(c as int))
  }

  predicate Has(flags: int, flag: int)
    requires flag > 0
  {
    flags / flag % 2 == 1
  }

  function Justify(flags: int, width: int, text: seq<byte>): seq<byte> {
    if Has(flags, F_MINUS) then text + Fill(' ', width - |text|) else Fill(' ', width - |text|) + text
  }

  /** The digits, at least prec of them; a zero with precision zero has none. */
  function Digits(prec: int, u: nat): seq<byte> {
    if prec == 0 && u == 0 then [] else Fill('0', prec - |HexDigits(u)|) + HexDigits(u)
  }

  function PrintHex(flags: int, width: int, prec: int, u: nat): seq<byte> {
    var sign := if Has(flags, F_HASH) && u != 0 then ['0' as int, 'x' as int] else [];
    var digits := Digits(prec, u);
    if Has(flags, F_ZERO) && !Has(flags, F_MINUS) && prec < 0 then
      sign + Fill('0', width - |sign| - |digits|) + digits
    else
      Justify(flags, width, sign + digits)
  }

  ghost predicate PrintsHex(printf: Printf, f: int, w: int, p: int, word: int) {
    printf(f, w, p, FC1('x'), Word(word)) == Printed(PrintHex(f, w, p, ToUint32(word)))
  }

  ghost predicate PrintsChar(printf: Printf, f: int, w: int, p: int, word: int) {
    printf(f, w, p, FC1('c'), Word(word)) == Printed(Justify(f, w, [ToByte(word)]))
  }

  /** snprintf renders %x and %c as the C standard says. */
  ghost predicate StandardPrintf(printf: Printf) {
    && (forall f, w, p, word :: PrintsHex(printf, f, w, p, word))
    && (forall f, w, p, word :: PrintsChar(printf, f, w, p, word))
  }

  // ------------------------------------------------------ fixed-width numbers

  function Power16(n: nat): (r: nat)
    ensures r >= 1
  {
    if n == 0 then 1 else 16 * Power16(n - 1)
  }

  /** Exactly n hexadecimal digits. */
  function FixedHex(n: nat, u: nat): (r: seq<byte>)
    ensures |r| == n
  {
    if n == 0 then [] else FixedHex(n - 1, u / 16) + [HexDigit(u % 16)]
  }

  lemma {:induction false} FixedZero(n: nat)
    ensures FixedHex(n, 0) == Fill('0', n)
  {
    if n > 0 {
      FixedZero(n - 1);
      assert Fill('0', n) == Fill('0', n - 1) + [HexDigit(0)];
    }
  }

  /** Zeros in front of the shortest form give the fixed form. */
  lemma {:induction false} PaddedIsFixed(n: nat, u: nat)
    requires 1 <= n && u < Power16(n)
    ensures |HexDigits(u)| <= n && Fill('0', n - |HexDigits(u)|) + HexDigits(u) == FixedHex(n, u)
    decreases n
  {
    if u < 16 {
      FixedZero(n - 1);
    } else {
      PaddedIsFixed(n - 1, u / 16);
      var z := Fill('0', n - |HexDigits(u)|);
      assert z + HexDigits(u) == (z + HexDigits(u / 16)) + [HexDigit(u % 16)];
    }
  }

  /** When a conversion OK_IS0FIXED accepts prints n zero-padded digits for every number of
      n digits: not with #, and not in the form %0N.0x, where C ignores the zero flag. */
  lemma ZeroFixedExact(flags: int, width: int, prec: int, n: nat)
    requires n >= 1 && 0 <= flags < 32 && -1 <= prec && IsZeroFixed(flags, width, prec, n)
    ensures (forall u :: 0 <= u < Power16(n) ==> PrintHex(PrintfFlags(flags), Max(width, 0), prec, u) == FixedHex(n, u))
       <==> !Has(flags, F_HASH) && prec != 0
  {
    var f, w := PrintfFlags(flags), Max(width, 0);
    FlagBits(flags);
    if !Has(flags, F_HASH) && prec != 0 {
      forall u | 0 <= u < Power16(n) ensures PrintHex(f, w, prec, u) == FixedHex(n, u) {
        PaddedIsFixed(n, u);
        ZeroFixedPrints(f, w, prec, n, u);
      }
    } else if prec == 0 {
      assert PrintHex(f, w, prec, 0) != FixedHex(n, 0) by {
        FixedZero(n);
        assert PrintHex(f, w, prec, 0)[0] == ' ' as int;
        assert Fill('0', n)[0] == '0' as int;
      }
    } else {
      assert Power16(n) >= 16 by { PowerGrows(n); }
      assert PrintHex(f, w, prec, 1) != FixedHex(n, 1) by {
        PaddedIsFixed(n, 1);
        assert |PrintHex(f, w, prec, 1)| > n;
      }
    }
  }

  lemma {:induction false} PowerGrows(n: nat)
    requires n >= 1
    ensures Power16(n) >= 16
  {
    if n > 1 { PowerGrows(n - 1); }
  }

  lemma FlagBits(flags: int)
    requires 0 <= flags < 32
    ensures Has(PrintfFlags(flags), F_HASH) == Has(flags, F_HASH)
    ensures Has(PrintfFlags(flags), F_ZERO) == Has(flags, F_ZERO)
    ensures Has(PrintfFlags(flags), F_MINUS) == Has(flags, F_MINUS)
  {
  }

  lemma ZeroFixedPrints(f: int, w: int, prec: int, n: nat, u: nat)
    requires n >= 1 && prec != 0 && !Has(f, F_HASH)
    requires (w == n && Has(f, F_ZERO) && !Has(f, F_MINUS) && prec < 0) || (prec == n && (w == 0 || w == n))
    requires |HexDigits(u)| <= n && Fill('0', n - |HexDigits(u)|) + HexDigits(u) == FixedHex(n, u)
    ensures PrintHex(f, w, prec, u) == FixedHex(n, u)
  {
    var digits := Digits(prec, u);
    assert [] + digits == digits;
    if prec < 0 {
      assert digits == HexDigits(u);
      assert [] + Fill('0', w - 0 - |digits|) + digits == Fill('0', n - |digits|) + digits;
    } else {
      assert digits == FixedHex(n, u);
      assert Fill(' ', w - n) == [];
      assert digits + [] == digits;
    }
  }

  /** The last two digits are the last byte. */
  lemma FixedByte(n: nat, u: nat)
    ensures FixedHex(n + 2, u) == FixedHex(n, u / 256) + HexByte(u)
  {
    assert u / 16 / 16 == u / 256;
    assert FixedHex(n + 2, u) == FixedHex(n + 1, u / 16) + [HexDigit(u % 16)];
    assert FixedHex(n + 1, u / 16) == FixedHex(n, u / 256) + [HexDigit(u / 16 % 16)];
  }

  lemma HexByteIsFixed(c: byte)
    ensures HexByte(c) == FixedHex(2, c)
  {
    FixedByte(0, c);
  }

  lemma DigitShift(y: nat, k: nat)
    ensures (y + 16 * k) / 16 == y / 16 + k && (y + 16 * k) % 16 == y % 16
  {
  }

  /** Only the low byte shows. */
  lemma HexByteShift(y: nat, k: nat)
    ensures HexByte(y + 256 * k) == HexByte(y)
  {
    DigitShift(y, 16 * k);
    DigitShift(y / 16, k);
  }

  /** The four bytes of an address above bit 31 do not show. */
  lemma AddressBytes(addr: nat)
    ensures var a := ToUint32(addr);
      && HexByte(addr) == HexByte(a)
      && HexByte(addr / 0x100) == HexByte(a / 0x100)
      && HexByte(addr / 0x1_0000) == HexByte(a / 0x1_0000)
      && HexByte(addr / 0x100_0000) == HexByte(a / 0x100_0000)
      && addr / 0x100_0000 % 16 == a / 0x100_0000 % 16
  {
    var a, q := ToUint32(addr), addr / 0x1_0000_0000;
    assert addr == a + 0x1_0000_0000 * q;
    HexByteShift(a, 0x100_0000 * q);
    assert addr / 0x100 == a / 0x100 + 0x100_0000 * q;
    HexByteShift(a / 0x100, 0x1_0000 * q);
    assert addr / 0x1_0000 == a / 0x1_0000 + 0x1_0000 * q;
    HexByteShift(a / 0x1_0000, 0x100 * q);
    assert addr / 0x100_0000 == a / 0x100_0000 + 0x100 * q;
    HexByteShift(a / 0x100_0000, q);
    DigitShift(a / 0x100_0000, 16 * q);
  }

  lemma FixedSix(n: nat, a: nat)
    ensures FixedHex(n + 6, a)
         == FixedHex(n, a / 0x100_0000) + HexByte(a / 0x1_0000) + HexByte(a / 0x100) + HexByte(a)
  {
    hide HexByte, FixedHex;
    FixedByte(n + 4, a);
    FixedByte(n + 2, a / 0x100);
    FixedByte(n, a / 0x1_0000);
    assert a / 0x100 / 256 == a / 0x1_0000 && a / 0x1_0000 / 256 == a / 0x100_0000;
  }

  lemma Addr8IsFixed(addr: nat)
    ensures Addr8(addr) == FixedHex(8, ToUint32(addr))
  {
    hide HexByte, FixedHex, ToUint32;
    var a := ToUint32(addr);
    AddressBytes(addr);
    FixedSix(2, a);
    assert FixedHex(2, a / 0x100_0000) == HexByte(a / 0x100_0000) by {
      HexByteIsFixed(a / 0x100_0000);
    }
  }

  lemma Addr7IsFixed(addr: nat)
    requires ToUint32(addr) < 0x1000_0000
    ensures Addr7(addr) == FixedHex(7, ToUint32(addr))
  {
    hide HexByte, ToUint32;
    var a := ToUint32(addr);
    AddressBytes(addr);
    FixedSix(1, a);
    assert FixedHex(1, a / 0x100_0000) == FixedHex(0, a / 0x100_0000 / 16) + [HexDigit(a / 0x100_0000 % 16)];
  }

  // --------------------------------------- one opcode against READ and CONV

  const FAST := Mode(true, true)

  lemma LoadByte(bigEndian: bool, b: byte)
    ensures LoadWord(bigEndian, [b]) == b && ToInt32(b) == b && ToUint32(b) == b && ToByte(b) == b
  {
    assert [b][..0] == [];
    assert WordBE([]) == 0 && WordLE([]) == 0 && Power256(0) == 1;
    assert WordBE([b]) == b;
    assert WordLE([b]) == ToInt32(b * 1);
  }

  lemma ReadOne(su: Setup, s: State)
    requires s.inp < |su.block|
    ensures ReadEnd(su, s.inp, 1) == s.inp + 1
    ensures LoadWord(su.bigEndian, su.block[s.inp..s.inp + 1]) == su.block[s.inp]
  {
    assert su.block[s.inp..s.inp + 1] == [su.block[s.inp]];
    LoadByte(su.bigEndian, su.block[s.inp]);
  }

  /** What the generic path makes of a %x that reads one byte. */
  lemma GenericHex(su: Setup, item: Item, s: State)
    requires item.Conv? && item.fc == FC1('x') && item.bytes == 1 && s.inp < |su.block| && StandardPrintf(su.printf)
    ensures var text := PrintHex(PrintfFlags(item.flags), Max(item.width, 0), item.prec, su.block[s.inp]);
      Generic(su, FAST, item, s) ==
        if |text| >= 256 then Fault(NOMEM, State(s.inp + 1, s.out)) else Fine(State(s.inp + 1, s.out + text))
  {
    hide LoadWord;
    ReadOne(su, s);
    var b := su.block[s.inp];
    LoadByte(su.bigEndian, b);
    assert PrintsHex(su.printf, PrintfFlags(item.flags), Max(item.width, 0), item.prec, b);
  }

  /** OP_2XBYTE stands in for READ and CONV on every input exactly when the conversion reads
      one byte, has no # and no precision zero. */
  lemma Hex2Exact(printf: Printf, item: Item)
    requires StandardPrintf(printf) && item.Conv? && ValidItem(item) && KindOf(item).Hex2?
    ensures (forall su: Setup, s: State :: su.printf == printf && s.inp < |su.block|
               ==> Convert(su, FAST, item, s) == Generic(su, FAST, item, s))
       <==> item.bytes == 1 && !Has(item.flags, F_HASH) && item.prec != 0
  {
    ZeroFixedExact(item.flags, item.width, item.prec, 2);
    assert Power16(2) == 256 by { assert Power16(1) == 16; }
    if item.bytes != 1 {
      var su := Setup([], [0, 0], 0, false, 0, printf);
      assert Convert(su, FAST, item, State(0, [])).s.inp == 1;
      assert Generic(su, FAST, item, State(0, [])).s.inp != 1;
    } else if Has(item.flags, F_HASH) || item.prec == 0 {
      var u :| 0 <= u < 256 && PrintHex(PrintfFlags(item.flags), Max(item.width, 0), item.prec, u) != FixedHex(2, u);
      Hex2Differs(printf, item, u);
    } else {
      forall su: Setup, s: State | su.printf == printf && s.inp < |su.block|
        ensures Convert(su, FAST, item, s) == Generic(su, FAST, item, s)
      {
        GenericHex(su, item, s);
        HexByteIsFixed(su.block[s.inp]);
      }
    }
  }

  lemma Hex2Differs(printf: Printf, item: Item, u: byte)
    requires StandardPrintf(printf) && item.Conv? && KindOf(item).Hex2? && item.bytes == 1
    requires PrintHex(PrintfFlags(item.flags), Max(item.width, 0), item.prec, u) != FixedHex(2, u)
    ensures exists su: Setup, s: State :: su.printf == printf && s.inp < |su.block|
              && Convert(su, FAST, item, s) != Generic(su, FAST, item, s)
  {
    var su := Setup([], [u], 0, false, 0, printf);
    var s := State(0, []);
    GenericHex(su, item, s);
    HexByteIsFixed(u);
    assert Convert(su, FAST, item, s) == Fine(State(1, [] + FixedHex(2, u)));
    assert [] + FixedHex(2, u) == FixedHex(2, u);
  }

  lemma ConvPrint1(su: Setup, inp: nat, flags: int, width: int, prec: int, b: byte)
    requires StandardPrintf(su.printf) && inp <= |su.block|
    ensures VmConv(su, inp, flags, width, prec, FC2('p'), b)
         == Checked(Printed(Justify(PrintfFlags(flags), Max(width, 0), [ToPrint(b)])))
  {
    assert PrintsChar(su.printf, PrintfFlags(flags), Max(width, 0), prec, ToPrint(b));
  }

  /** OP_PBYTE always does what %_p through printf does. */
  lemma Print1Refines(su: Setup, item: Item, s: State)
    requires StandardPrintf(su.printf) && item.Conv? && ValidItem(item) && KindOf(item).Print1? && s.inp < |su.block|
    ensures Convert(su, FAST, item, s) == Generic(su, FAST, item, s)
  {
    hide LoadWord, VmConv, StandardPrintf, ToPrint;
    ReadOne(su, s);
    var b := su.block[s.inp];
    ConvPrint1(su, s.inp + 1, item.flags, item.width, item.prec, b);
    assert Fill(' ', Max(item.width, 0) - 1) == [];
    assert [ToPrint(b)] + [] == [ToPrint(b)] == [] + [ToPrint(b)];
  }

  lemma ConvAddress(su: Setup, inp: nat, flags: int, width: int, prec: int, word: int)
    requires StandardPrintf(su.printf) && inp <= |su.block|
    ensures VmConv(su, inp, flags, width, prec, FC2('x'), word)
      == Checked(Printed(PrintHex(PrintfFlags(flags), Max(width, 0), prec, ToUint32(su.address + inp))))
  {
    hide PrintHex, ToUint32, ToInt32, PrintfFlags;
    var here := su.address + inp;
    Int32Bits(here);
    assert PrintsHex(su.printf, PrintfFlags(flags), Max(width, 0), prec, ToInt32(here));
  }

  lemma GenericAddress(su: Setup, item: Item, s: State)
    requires item.Conv? && item.fc == FC2('x') && item.bytes == 0 && Inside(su, s) && StandardPrintf(su.printf)
    ensures var text := PrintHex(PrintfFlags(item.flags), Max(item.width, 0), item.prec, ToUint32(su.address + s.inp));
      Generic(su, FAST, item, s) ==
        if |text| >= 256 then Fault(NOMEM, s) else Fine(State(s.inp, s.out + text))
  {
    hide LoadWord, VmConv, PrintHex, ToUint32, PrintfFlags, StandardPrintf;
    ConvAddress(su, s.inp, item.flags, item.width, item.prec, LoadWord(su.bigEndian, su.block[s.inp..s.inp]));
  }

  lemma Int32Bits(w: int)
    ensures ToUint32(ToInt32(w)) == ToUint32(w)
  {
    var q := (w + 0x8000_0000) / 0x1_0000_0000;
    assert ToInt32(w) == w - 0x1_0000_0000 * q;
  }

  /** OP_8XADDR prints what %_ax prints at every address, for every width OK_8XADDR accepts
      without # and without precision zero. */
  lemma Addr8Refines(su: Setup, item: Item, s: State)
    requires StandardPrintf(su.printf) && item.Conv? && ValidItem(item) && KindOf(item).Addr8Kind? && Inside(su, s)
    requires !Has(item.flags, F_HASH) && item.prec != 0
    ensures Convert(su, FAST, item, s) == Generic(su, FAST, item, s)
  {
    hide Generic, PrintsHex, ToUint32, Addr8, FixedHex;
    var a := ToUint32(su.address + s.inp);
    ZeroFixedExact(item.flags, item.width, item.prec, 8);
    assert Power16(8) == 0x1_0000_0000 by { Powers(); }
    assert PrintHex(PrintfFlags(item.flags), Max(item.width, 0), item.prec, a) == FixedHex(8, a);
    GenericAddress(su, item, s);
    Addr8IsFixed(su.address + s.inp);
  }

  lemma Powers()
    ensures Power16(7) == 0x1000_0000 && Power16(8) == 0x1_0000_0000
  {
    assert Power16(2) == 256 by { assert Power16(1) == 16; }
    assert Power16(4) == 0x1_0000 by { assert Power16(3) == 0x1000; }
    assert Power16(6) == 0x100_0000 by { assert Power16(5) == 0x10_0000; }
  }

  /** OP_7XADDR does so exactly below 2^28: above, printf writes an eighth digit. */
  lemma Addr7Exact(su: Setup, item: Item, s: State)
    requires StandardPrintf(su.printf) && item.Conv? && ValidItem(item) && KindOf(item).Addr7Kind? && Inside(su, s)
    requires !Has(item.flags, F_HASH) && item.prec != 0
    ensures Convert(su, FAST, item, s) == Generic(su, FAST, item, s) <==> ToUint32(su.address + s.inp) < 0x1000_0000
  {
    hide Generic, PrintsHex, ToUint32, Addr7, FixedHex;
    var a := ToUint32(su.address + s.inp);
    var f, w := PrintfFlags(item.flags), Max(item.width, 0);
    ZeroFixedExact(item.flags, item.width, item.prec, 7);
    Powers();
    GenericAddress(su, item, s);
    if a < 0x1000_0000 {
      assert PrintHex(f, w, item.prec, a) == FixedHex(7, a);
      Addr7IsFixed(su.address + s.inp);
    } else {
      LongNumber(7, a);
      assert |PrintHex(f, w, item.prec, a)| > 7;
      assert |Addr7(su.address + s.inp)| == 7 by { Addr7Size(su.address + s.inp); }
      assert |s.out + Addr7(su.address + s.inp)| != |s.out + PrintHex(f, w, item.prec, a)|;
    }
  }

  /** The address conversions are written directly for every address that has the digits exactly
      when there is no # and no precision zero. */
  lemma AddressFlagsExact(printf: Printf, item: Item, n: nat)
    requires StandardPrintf(printf) && item.Conv? && ValidItem(item)
    requires (n == 7 && KindOf(item).Addr7Kind?) || (n == 8 && KindOf(item).Addr8Kind?)
    ensures (forall su: Setup, s: State :: su.printf == printf && Inside(su, s) && ToUint32(su.address + s.inp) < Power16(n)
               ==> Convert(su, FAST, item, s) == Generic(su, FAST, item, s))
       <==> !Has(item.flags, F_HASH) && item.prec != 0
  {
    hide VmConv, StandardPrintf, Has, KindOf, PrintHex;
    KindIsFixed(item, n);
    ZeroFixedExact(item.flags, item.width, item.prec, n);
    Powers();
    if !Has(item.flags, F_HASH) && item.prec != 0 {
      forall su: Setup, s: State | su.printf == printf && Inside(su, s) && ToUint32(su.address + s.inp) < Power16(n)
        ensures Convert(su, FAST, item, s) == Generic(su, FAST, item, s)
      {
        if n == 7 { Addr7Exact(su, item, s); } else { Addr8Refines(su, item, s); }
      }
    } else {
      var u :| 0 <= u < Power16(n) && PrintHex(PrintfFlags(item.flags), Max(item.width, 0), item.prec, u) != FixedHex(n, u);
      AddressDiffers(printf, item, n, u);
    }
  }

  lemma KindIsFixed(item: Item, n: nat)
    requires item.Conv? && ValidItem(item)
    requires (n == 7 && KindOf(item).Addr7Kind?) || (n == 8 && KindOf(item).Addr8Kind?)
    ensures IsZeroFixed(item.flags, item.width, item.prec, n) && item.fc == FC2('x') && item.bytes == 0
  {
  }

  lemma AddressDiffers(printf: Printf, item: Item, n: nat, u: nat)
    requires StandardPrintf(printf) && item.Conv? && ValidItem(item)
    requires (n == 7 && KindOf(item).Addr7Kind?) || (n == 8 && KindOf(item).Addr8Kind?)
    requires u < Power16(n) && PrintHex(PrintfFlags(item.flags), Max(item.width, 0), item.prec, u) != FixedHex(n, u)
    ensures exists su: Setup, s: State :: su.printf == printf && Inside(su, s) && ToUint32(su.address + s.inp) < Power16(n)
              && Convert(su, FAST, item, s) != Generic(su, FAST, item, s)
  {
    hide VmConv, StandardPrintf, PrintHex, FixedHex, Convert, Generic, KindOf, Power16;
    KindIsFixed(item, n);
    Powers();
    var su, s := Setup([], [], u, false, 0, printf), State(0, []);
    GenericAddress(su, item, s);
    DirectAddress(su, item, s, n);
    var text := PrintHex(PrintfFlags(item.flags), Max(item.width, 0), item.prec, u);
    assert [] + text == text && [] + FixedHex(n, u) == FixedHex(n, u);
    assert Convert(su, FAST, item, s) != Generic(su, FAST, item, s);
  }

  lemma DirectAddress(su: Setup, item: Item, s: State, n: nat)
    requires item.Conv? && Inside(su, s) && ToUint32(su.address + s.inp) < Power16(n)
    requires (n == 7 && KindOf(item).Addr7Kind?) || (n == 8 && KindOf(item).Addr8Kind?)
    ensures Convert(su, FAST, item, s) == Fine(State(s.inp, s.out + FixedHex(n, ToUint32(su.address + s.inp))))
  {
    hide FixedHex, KindOf, Generic;
    Powers();
    if n == 7 { Addr7IsFixed(su.address + s.inp); } else { Addr8IsFixed(su.address + s.inp); }
  }

  lemma Addr7Size(addr: nat)
    ensures |Addr7(addr)| == 7
  {
  }

  lemma {:induction false} LongNumber(n: nat, u: nat)
    requires u >= Power16(n)
    ensures |HexDigits(u)| > n
  {
    if n > 0 {
      LongNumber(n - 1, u / 16);
    }
  }

  // ----------------------------------------------- when all readings coincide

  ghost predicate SameItem(su: Setup, a: Mode, b: Mode, item: Item) {
    forall s :: Inside(su, s) ==> DoItem(su, a, item, s) == DoItem(su, b, item, s)
  }

  ghost predicate SameUnit(su: Setup, a: Mode, b: Mode, u: Unit) {
    && (forall k :: 0 <= k < |u.items| ==> SameItem(su, a, b, u.items[k]))
    && Imm(a, u.loop) == Imm(b, u.loop) && Imm(a, u.skip) == Imm(b, u.skip) && Imm(a, u.chop) == Imm(b, u.chop)
  }

  lemma {:induction false} SameItems(su: Setup, a: Mode, b: Mode, items: seq<Item>, s: State)
    requires Inside(su, s) && forall k :: 0 <= k < |items| ==> SameItem(su, a, b, items[k])
    ensures DoItems(su, a, items, s) == DoItems(su, b, items, s)
  {
    if items != [] {
      SameItems(su, a, b, items[..|items| - 1], s);
      assert SameItem(su, a, b, items[|items| - 1]);
    }
  }

  lemma {:induction false} SameRepeat(su: Setup, a: Mode, b: Mode, u: Unit, c: nat, s: State)
    requires Inside(su, s) && SameUnit(su, a, b, u)
    ensures Repeat(su, a, u, c, s) == Repeat(su, b, u, c, s)
    decreases Imm(a, u.loop) - c
  {
    SameItems(su, a, b, u.items, s);
    var r := DoOnce(su, a, u, s);
    if c < Imm(a, u.loop) && r.Fine? {
      SameRepeat(su, a, b, u, c + 1, r.s);
    }
  }

  lemma {:induction false} SameUnits(su: Setup, a: Mode, b: Mode, line: Line, s: State)
    requires Inside(su, s) && forall j :: 0 <= j < |line| ==> SameUnit(su, a, b, line[j])
    ensures DoUnits(su, a, line, s) == DoUnits(su, b, line, s)
  {
    if line != [] {
      SameUnits(su, a, b, line[..|line| - 1], s);
      var r := DoUnits(su, a, line[..|line| - 1], s);
      if r.Fine? {
        SameRepeat(su, a, b, line[|line| - 1], 0, r.s);
      }
    }
  }

  lemma {:induction false} SameLines(su: Setup, a: Mode, b: Mode, prog: Program, s: State)
    requires Inside(su, s) && forall i, j :: 0 <= i < |prog| && 0 <= j < |prog[i]| ==> SameUnit(su, a, b, prog[i][j])
    ensures DoLines(su, a, prog, s) == DoLines(su, b, prog, s)
  {
    if prog != [] {
      var front, last := prog[..|prog| - 1], prog[|prog| - 1];
      SameLines(su, a, b, front, s);
      var r := DoLines(su, a, front, s);
      if r.Fine? {
        SameUnits(su, a, b, last, State(0, r.s.out));
      }
    }
  }

  /** Every number in the format fits OP_I16. */
  predicate SmallUnit(u: Unit) {
    && u.loop < 0x1_0000 && u.skip < 0x1_0000 && u.chop < 0x1_0000
    && forall k :: 0 <= k < |u.items| && u.items[k].Conv? ==>
         u.items[k].width < 0x1_0000 && u.items[k].prec < 0x1_0000 && u.items[k].bytes < 0x1_0000
  }

  predicate SevenDigits(su: Setup, inp: int) { ToUint32(su.address + inp) < 0x1000_0000 }

  /** The one-opcode conversions are used where they mean the same. */
  predicate PlainItem(su: Setup, item: Item) {
    item.Conv? ==>
      match KindOf(item)
      case Hex2 => item.bytes == 1 && !Has(item.flags, F_HASH) && item.prec != 0
      case Addr7Kind => !Has(item.flags, F_HASH) && item.prec != 0
                     && forall k :: 0 <= k <= |su.block| ==> SevenDigits(su, k)
      case Addr8Kind => !Has(item.flags, F_HASH) && item.prec != 0
      case _ => true
  }

  predicate PlainUnit(su: Setup, u: Unit) {
    SmallUnit(u) && forall k :: 0 <= k < |u.items| ==> PlainItem(su, u.items[k])
  }

  predicate PlainProgram(su: Setup, prog: Program) {
    forall i, j :: 0 <= i < |prog| && 0 <= j < |prog[i]| ==> PlainUnit(su, prog[i][j])
  }

  lemma SmallNumbers(su: Setup, u: Unit)
    requires ValidUnit(u) && SmallUnit(u)
    ensures SameUnit(su, COMPILED, FAST, u)
  {
    LoadedSmall(u.loop);
    LoadedSmall(u.skip);
    LoadedSmall(u.chop);
    forall k | 0 <= k < |u.items| ensures SameItem(su, COMPILED, FAST, u.items[k]) {
      var item := u.items[k];
      assert ValidItem(item);
      if item.Conv? {
        LoadedSmall(item.width);
        LoadedSmall(item.prec);
        LoadedSmall(item.fc);
        LoadedSmall(item.flags);
        LoadedSmall(ReadBytes(item));
      }
    }
  }

  lemma FastIsPlain(su: Setup, item: Item)
    requires ValidItem(item) && PlainItem(su, item) && StandardPrintf(su.printf)
    ensures SameItem(su, FAST, PLAIN, item)
  {
    hide VmConv, LoadWord, StandardPrintf, Has, PrintHex, FixedHex, Power16, ToUint32, Addr7, Addr8, HexByte;
    forall s | Inside(su, s) ensures DoItem(su, FAST, item, s) == DoItem(su, PLAIN, item, s) {
      if item.Conv? && !(item.bytes > 0 && s.inp == |su.block|) {
        assert Generic(su, FAST, item, s) == Generic(su, PLAIN, item, s);
        match KindOf(item)
        case Hex2 => Hex2Exact(su.printf, item);
        case Print1 => Print1Refines(su, item, s);
        case Addr7Kind =>
          assert SevenDigits(su, s.inp);
          Addr7Exact(su, item, s);
        case Addr8Kind => Addr8Refines(su, item, s);
        case General =>
      }
    }
  }

  /** A format whose numbers are small and whose %02x conversions read single bytes: the
      compiled program does exactly what the plain reading of the format says, on every block. */
  lemma CompiledMeansPlain(su: Setup, prog: Program, out: seq<byte>)
    requires ValidProgram(prog) && PlainProgram(su, prog) && StandardPrintf(su.printf)
    requires |LinesCode(prog)| < CODE_SIZE && su.code == Image(prog) && su.slots >= 6
    ensures Reaches(su, Start(out), Verdict(|LinesCode(prog)|, DoLines(su, PLAIN, prog, State(0, out))))
  {
    forall i, j | 0 <= i < |prog| && 0 <= j < |prog[i]|
      ensures SameUnit(su, COMPILED, FAST, prog[i][j]) && SameUnit(su, FAST, PLAIN, prog[i][j])
    {
      var u := prog[i][j];
      assert PlainUnit(su, u) && ValidUnit(u);
      SmallNumbers(su, u);
      forall k | 0 <= k < |u.items| ensures SameItem(su, FAST, PLAIN, u.items[k]) {
        FastIsPlain(su, u.items[k]);
      }
    }
    var s := State(0, out);
    SameLines(su, COMPILED, FAST, prog, s);
    SameLines(su, FAST, PLAIN, prog, s);
    CompilerCorrect(su, prog, out);
  }
}
