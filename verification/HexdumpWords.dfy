/** The words OP_READ makes of several bytes, in both byte orders, and what %x shows of them. */
module HexdumpWords {
  import opened Arithmetic

  import opened HexdumpMachine
  import opened HexdumpFormat
  import opened HexdumpReference
  import opened HexdumpFast

  function Backwards(bytes: seq<byte>): (r: seq<byte>)
    ensures |r| == |bytes| && forall i :: 0 <= i < |bytes| ==> r[i] == bytes[|bytes| - 1 - i]
  {
    seq(|bytes|, i requires 0 <= i < |bytes| => bytes[|bytes| - 1 - i])
  }

  /** The bytes of a word from the most significant one on */
  function InOrder(bigEndian: bool, bytes: seq<byte>): (r: seq<byte>)
    ensures |r| == |bytes|
  {
    if bigEndian then bytes else Backwards(bytes)
  }

  lemma PowersOf256()
    ensures Power256(0) == 1 && Power256(1) == 0x100 && Power256(2) == 0x1_0000
    ensures Power256(3) == 0x100_0000 && Power256(4) == 0x1_0000_0000
  {
    assert Power256(2) == 256 * Power256(1);
    assert Power256(3) == 256 * Power256(2);
  }

  lemma {:induction false} Power256Grows(n: nat)
    ensures Power256(n) >= 1
  {
    if n > 0 { Power256Grows(n - 1); }
  }

  lemma {:induction false} BigFits(bytes: seq<byte>)
    ensures 0 <= WordBE(bytes) < Power256(|bytes|)
  {
    if bytes != [] { BigFits(bytes[..|bytes| - 1]); }
  }

  lemma {:induction false} BigFront(b: byte, rest: seq<byte>)
    ensures WordBE([b] + rest) == b * Power256(|rest|) + WordBE(rest)
  {
    var n := |rest|;
    if n == 0 {
      assert ([b] + rest)[..0] == [];
    } else {
      BigFront(b, rest[..n - 1]);
      assert ([b] + rest)[..n] == [b] + rest[..n - 1];
      assert b * Power256(n) == (b * Power256(n - 1)) * 256;
    }
  }

  lemma Wraps(w: int, q: int)
    ensures ToUint32(w + 0x1_0000_0000 * q) == ToUint32(w)
  {
  }

  lemma Int32Wraps(w: int)
    ensures exists q :: ToInt32(w) == w + 0x1_0000_0000 * q
  {
    var q := -((w + 0x8000_0000) / 0x1_0000_0000);
    assert ToInt32(w) == w + 0x1_0000_0000 * q;
  }

  /** The sign a little-endian word gets from its fourth byte does not show in 32 bits. */
  lemma {:induction false} LittleIsBackwards(bytes: seq<byte>)
    ensures exists q :: WordLE(bytes) == WordBE(Backwards(bytes)) + 0x1_0000_0000 * q
  {
    var n := |bytes|;
    if n == 0 {
      assert WordLE(bytes) == WordBE(Backwards(bytes)) + 0x1_0000_0000 * 0;
    } else {
      var front, b := bytes[..n - 1], bytes[n - 1];
      LittleIsBackwards(front);
      var q :| WordLE(front) == WordBE(Backwards(front)) + 0x1_0000_0000 * q;
      Int32Wraps(b * Power256(n - 1));
      var p :| ToInt32(b * Power256(n - 1)) == b * Power256(n - 1) + 0x1_0000_0000 * p;
      assert Backwards(bytes) == [b] + Backwards(front);
      BigFront(b, Backwards(front));
      assert WordLE(bytes) == WordBE(Backwards(bytes)) + 0x1_0000_0000 * (q + p);
    }
  }

  /** A word of up to four bytes is, in 32 bits, the number its bytes spell in their order. */
  lemma WordIs(bigEndian: bool, bytes: seq<byte>)
    requires |bytes| <= 4
    ensures ToUint32(LoadWord(bigEndian, bytes)) == WordBE(InOrder(bigEndian, bytes)) < Power256(|bytes|)
  {
    hide WordBE, WordLE, ToUint32, Power256;
    var s := InOrder(bigEndian, bytes);
    BigFits(s);
    PowersOf256();
    assert ToUint32(WordBE(s)) == WordBE(s) by { SmallWord(WordBE(s), |bytes|); }
    if !bigEndian {
      LittleIsBackwards(bytes);
      var q :| WordLE(bytes) == WordBE(s) + 0x1_0000_0000 * q;
      Wraps(WordBE(s), q);
    }
  }

  lemma SmallWord(w: nat, n: nat)
    requires n <= 4 && w < Power256(n)
    ensures ToUint32(w) == w
  {
    PowersOf256();
  }

  lemma Digit256(w: nat, b: byte, m: nat)
    requires m >= 1
    ensures (w * 256 + b) / (256 * m) == w / m && (w * 256 + b) % 256 == b
  {
    var q, r := w / m, w % m;
    assert w * 256 + b == (256 * m) * q + (256 * r + b);
    assert 256 * r + b < 256 * m;
    Quotient(w * 256 + b, 256 * m, q, 256 * r + b);
  }

  lemma Quotient(a: nat, m: nat, q: nat, r: nat)
    requires a == m * q + r && r < m
    ensures a / m == q
  {
    var p := a / m;
    if p < q { Gap(m, p, q); }
    if q < p { Gap(m, q, p); }
  }

  lemma {:induction false} BigByte(bytes: seq<byte>, i: nat)
    requires i < |bytes|
    ensures Power256(|bytes| - 1 - i) >= 1 && WordBE(bytes) / Power256(|bytes| - 1 - i) % 256 == bytes[i]
    decreases |bytes|
  {
    var n := |bytes|;
    var front := bytes[..n - 1];
    BigFits(front);
    Power256Grows(n - 1 - i);
    if i == n - 1 {
      Digit256(WordBE(front), bytes[i], 1);
    } else {
      BigByte(front, i);
      Digit256(WordBE(front), bytes[n - 1], Power256(n - 2 - i));
    }
  }

  /** Each byte of the input is a byte of the word: the first one the most significant, or the
      least significant where words are little endian. */
  lemma ByteOrder(bytes: seq<byte>, i: nat)
    requires i < |bytes| <= 4
    ensures Power256(|bytes| - 1 - i) >= 1 && Power256(i) >= 1
    ensures ToUint32(LoadWord(true, bytes)) / Power256(|bytes| - 1 - i) % 256 == bytes[i]
    ensures ToUint32(LoadWord(false, bytes)) / Power256(i) % 256 == bytes[i]
  {
    hide WordBE, LoadWord, Power256, ToUint32;
    WordIs(true, bytes);
    WordIs(false, bytes);
    BigByte(bytes, i);
    BigByte(Backwards(bytes), |bytes| - 1 - i);
  }

  // ------------------------------------------------------------- what is shown

  /** Two digits for each byte */
  function HexOf(bytes: seq<byte>): (r: seq<byte>)
    ensures |r| == 2 * |bytes|
  {
    if bytes == [] then [] else HexOf(bytes[..|bytes| - 1]) + HexByte(bytes[|bytes| - 1])
  }

  lemma {:induction false} WordDigits(n: nat, bytes: seq<byte>)
    requires |bytes| <= n
    ensures WordBE(bytes) >= 0 && FixedHex(2 * n, WordBE(bytes)) == Fill('0', 2 * (n - |bytes|)) + HexOf(bytes)
    decreases |bytes|
  {
    hide FixedHex, HexByte;
    var k := |bytes|;
    BigFits(bytes);
    if k == 0 {
      FixedZero(2 * n);
    } else {
      var front, b := bytes[..k - 1], bytes[k - 1];
      BigFits(front);
      WordDigits(n - 1, front);
      FixedByte(2 * (n - 1), WordBE(bytes));
      Digit256(WordBE(front), b, 1);
      HexByteShift(b, WordBE(front));
      assert Fill('0', 2 * (n - k)) + HexOf(front) + HexByte(b) == Fill('0', 2 * (n - k)) + HexOf(bytes);
    }
  }

  lemma {:induction false} Powers16And256(n: nat)
    ensures Power16(2 * n) == Power256(n)
  {
    if n > 0 {
      Powers16And256(n - 1);
      assert Power16(2 * n) == 16 * Power16(2 * n - 1) == 16 * (16 * Power16(2 * (n - 1)));
    }
  }

  /** %02x, %04x, %06x and %08x for as many bytes */
  function HexItem(n: nat): Item { Conv(F_ZERO, 2 * n, -1, FC1('x'), n) }

  function Fetched(su: Setup, inp: nat, n: nat): seq<byte>
    requires inp <= |su.block|
  {
    su.block[inp..Min(inp + n, |su.block|)]
  }

  lemma HexItemIs(n: nat)
    requires 1 <= n <= 4
    ensures ValidItem(HexItem(n)) && ReadBytes(HexItem(n)) == n
    ensures if n == 1 then KindOf(HexItem(n)).Hex2? else KindOf(HexItem(n)).General?
    ensures IsZeroFixed(F_ZERO, 2 * n, -1, 2 * n) && !Has(F_ZERO, F_HASH) && PrintfFlags(F_ZERO) == F_ZERO
    ensures Loaded(F_ZERO) == F_ZERO && Loaded(2 * n) == 2 * n && Loaded(-1) == -1 && Loaded(FC1('x')) == FC1('x') && Loaded(n) == n
  {
  }

  /** The conversion of a word, as printf shows it */
  lemma ConvWord(su: Setup, inp: nat, n: nat, word: int)
    requires StandardPrintf(su.printf) && inp <= |su.block| && 1 <= n <= 4 && ToUint32(word) < Power16(2 * n)
    ensures VmConv(su, inp, F_ZERO, 2 * n, -1, FC1('x'), word) == Converted(FixedHex(2 * n, ToUint32(word)))
  {
    hide PrintHex, ToUint32, ToInt32, Power16, FixedHex;
    HexItemIs(n);
    Int32Bits(word);
    assert PrintsHex(su.printf, F_ZERO, 2 * n, -1, ToInt32(word));
    ZeroFixedExact(F_ZERO, 2 * n, -1, 2 * n);
    assert PrintHex(PrintfFlags(F_ZERO), Max(2 * n, 0), -1, ToUint32(word)) == FixedHex(2 * n, ToUint32(word));
  }

  /** A compiled %0Nx of n bytes writes two digits for each of them, the most significant byte
      first; where the block ends too early, zeros stand in front. */
  lemma WordShows(su: Setup, n: nat, s: State)
    requires StandardPrintf(su.printf) && 1 <= n <= 4 && s.inp < |su.block|
    ensures var bytes := Fetched(su, s.inp, n);
      DoItem(su, COMPILED, HexItem(n), s)
        == Fine(State(s.inp + |bytes|, s.out + (Fill('0', 2 * (n - |bytes|)) + HexOf(InOrder(su.bigEndian, bytes)))))
  {
    hide VmConv, LoadWord, FixedHex, Power16, Power256, HexOf, StandardPrintf, KindOf, Loaded, WordBE, ToUint32, ReadBytes, IsZeroFixed;
    HexItemIs(n);
    var bytes := Fetched(su, s.inp, n);
    var order := InOrder(su.bigEndian, bytes);
    WordIs(su.bigEndian, bytes);
    WordDigits(n, order);
    if n == 1 {
      assert bytes == order == [su.block[s.inp]];
      OneByte(su.block[s.inp]);
    } else {
      Powers16And256(n);
      Power256Monotone(|bytes|, n);
      ConvWord(su, s.inp + |bytes|, n, LoadWord(su.bigEndian, bytes));
    }
  }

  lemma {:induction false} Power256Monotone(a: nat, b: nat)
    requires a <= b
    ensures Power256(a) <= Power256(b)
    decreases b
  {
    if a < b {
      Power256Monotone(a, b - 1);
      Power256Grows(b - 1);
    }
  }

  lemma OneByte(b: byte)
    ensures Fill('0', 0) + HexOf([b]) == HexByte(b)
  {
    assert [b][..0] == [];
    assert HexOf([b]) == [] + HexByte(b);
  }

  predicate IntegerFc(fc: int) {
    fc == FC1('d') || fc == FC1('i') || fc == FC1('o') || fc == FC1('u') || fc == FC1('X') || fc == FC1('x')
  }

  /** The integer conversions hand printf the number the bytes spell in their order: as it is for
      %u, and otherwise as the int with the same 32 bits, a negative one from bit 31 on. */
  lemma ArgumentIs(su: Setup, inp: nat, flags: int, width: int, prec: int, fc: int, bytes: seq<byte>)
    requires inp <= |su.block| && |bytes| <= 4 && IntegerFc(fc)
    ensures var n := WordBE(InOrder(su.bigEndian, bytes));
      var arg := if fc == FC1('u') || n < 0x8000_0000 then n else n - 0x1_0000_0000;
      VmConv(su, inp, flags, width, prec, fc, LoadWord(su.bigEndian, bytes))
        == Checked(su.printf(PrintfFlags(flags), Max(width, 0), prec, fc, Word(arg)))
  {
    hide LoadWord, WordBE, PrintfFlags, InOrder;
    WordIs(su.bigEndian, bytes);
    Power256Monotone(|bytes|, 4);
    PowersOf256();
    SignedWord(LoadWord(su.bigEndian, bytes));
  }

  lemma SignedWord(w: int)
    ensures var n := ToUint32(w); ToInt32(w) == if n < 0x8000_0000 then n else n - 0x1_0000_0000
  {
  }
}
