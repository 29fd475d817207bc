/** What the complements of CRC-32 are for: a stream that carries its checksum has a fixed remainder,
    and the check value that catalogues of checksums give. */
module Crc32Residue {
  import opened Crc32

  /** The four bytes of a checksum, the least significant one first */
  function LittleEndian(c: bv32): (r: seq<bv8>)
    ensures |r| == 4
  {
    [LowByte(c), LowByte(Higher(c)), LowByte(Higher(Higher(c))), LowByte(Higher(Higher(Higher(c))))]
  }

  function LowByte(c: bv32): bv8 { (c & 0xFF) as bv8 }

  function Higher(c: bv32): bv32 { c >> 8 }

  /** The checksum of a stream with its own checksum behind it */
  const RESIDUE: bv32 := 0x2144DF1C

  lemma TakesByte(c: bv32)
    ensures ByTable(c, LowByte(c)) == Higher(c)
  {
    assert Plus(c, LowByte(c) as bv32) & 0xFF == 0;
    assert Eight(0) == 0;
    hide Eight, LowByte;
  }

  lemma NoHigher(c: bv32)
    ensures Higher(Higher(Higher(Higher(c)))) == 0
  {
  }

  lemma FourBytes(c: bv32, s: seq<bv8>)
    requires |s| == 4
    ensures Bytes(c, s) == ByTable(ByTable(ByTable(ByTable(c, s[0]), s[1]), s[2]), s[3])
  {
    hide ByTable;
    assert s[1..][1..] == s[2..] && s[2..][1..] == s[3..] && s[3..][1..] == [];
    var c1 := ByTable(c, s[0]);
    var c2 := ByTable(c1, s[1]);
    var c3 := ByTable(c2, s[2]);
    assert Bytes(c3, s[3..]) == ByTable(c3, s[3]);
    assert Bytes(c1, s[1..]) == Bytes(c2, s[2..]) == Bytes(c3, s[3..]);
  }

  /** A register that takes in its own bytes is empty. */
  lemma TakesItself(c: bv32)
    ensures Bytes(c, LittleEndian(c)) == 0
  {
    hide ByTable, LowByte, Bytes, Higher;
    FourBytes(c, LittleEndian(c));
    NoHigher(c);
    TakesByte(c);
    TakesByte(Higher(c));
    TakesByte(Higher(Higher(c)));
    TakesByte(Higher(Higher(Higher(c))));
  }

  lemma LittleEndianInjective(c: bv32, d: bv32)
    requires LittleEndian(c) == LittleEndian(d)
    ensures c == d
  {
    var s, t := LittleEndian(c), LittleEndian(d);
    assert s[0] == t[0] && s[1] == t[1] && s[2] == t[2] && s[3] == t[3];
  }

  const ONES: seq<bv8> := [0xFF, 0xFF, 0xFF, 0xFF]

  lemma OnesLeave()
    ensures Bytes(0, ONES) == 0xDEBB20E3
  {
    assert ByTable(0x00000000, 0xFF) == 0x2D02EF8D;
    assert ByTable(0x2D02EF8D, 0xFF) == 0xBE2612FF;
    assert ByTable(0xBE2612FF, 0xFF) == 0x00BE2612;
    assert ByTable(0x00BE2612, 0xFF) == 0xDEBB20E3;
    hide ByTable;
    var s := ONES;
    assert s[1..] == [0xFF, 0xFF, 0xFF] && s[1..][1..] == [0xFF, 0xFF] && s[1..][1..][1..] == [0xFF] && s[1..][1..][1..][1..] == [];
  }

  lemma ComplementBits(c: bv32)
    ensures |Bits(LittleEndian(c))| == |Bits(ONES)| && Bits(LittleEndian(Inverted(c))) == Diff(Bits(LittleEndian(c)), Bits(ONES))
  {
    hide Bits, BitsOf, LowByte, Inverted;
    var x, y, n := LittleEndian(c), LittleEndian(Inverted(c)), ONES;
    forall k | 0 <= k < 32
      ensures Bits(y)[k] == (Bits(x)[k] != Bits(n)[k])
    {
      BitAt(x, k);
      BitAt(y, k);
      BitAt(n, k);
      ComplementByte(c, k / 8);
    }
  }

  lemma ComplementByte(c: bv32, k: nat)
    requires k < 4
    ensures forall j :: 0 <= j < 8 ==> BitsOf(LittleEndian(Inverted(c))[k])[j] == (BitsOf(LittleEndian(c)[k])[j] != BitsOf(0xFF)[j])
  {
  }

  lemma OnesInverted()
    ensures Inverted(0xDEBB20E3) == RESIDUE
  {
  }

  /** Behind any stream, its own checksum leaves the fixed remainder. */
  lemma CarriesItsSum(crc: bv32, data: seq<bv8>)
    ensures Checksum(crc, data + LittleEndian(Checksum(crc, data))) == RESIDUE
  {
    hide Feed, Bits, Bytes, Inverted, Plus, LittleEndian, Diff;
    var r := Feed(Inverted(crc), Bits(data));
    var x, y := LittleEndian(r), LittleEndian(Inverted(r));
    BitsJoin(data, y);
    FeedJoin(Inverted(crc), Bits(data), Bits(y));
    ComplementBits(r);
    FeedDiff(r, 0, Bits(x), Bits(ONES));
    BytesAreBits(r, x);
    BytesAreBits(0, ONES);
    TakesItself(r);
    OnesLeave();
    PlusCancels(r, 0);
    PlusCancels(0xDEBB20E3, 0);
    OnesInverted();
  }

  /** And no other four bytes do. */
  lemma ResidueExactly(crc: bv32, data: seq<bv8>, sum: seq<bv8>)
    requires |sum| == 4
    ensures Checksum(crc, data + sum) == RESIDUE <==> sum == LittleEndian(Checksum(crc, data))
  {
    hide Checksum, LittleEndian;
    CarriesItsSum(crc, data);
    var own := LittleEndian(Checksum(crc, data));
    if sum != own {
      var x, y := data + sum, data + own;
      assert x[|data|..] == sum && y[|data|..] == own;
      FourBytesFound(crc, x, y, |data|);
    }
  }

  /** The digits 1 to 9 in ASCII */
  const DIGITS: seq<bv8> := [0x31, 0x32, 0x33, 0x34, 0x35, 0x36, 0x37, 0x38, 0x39]

  lemma DigitsLeave()
    ensures Bytes(0xFFFFFFFF, DIGITS) == 0x340BC6D9
  {
    assert ByTable(0xFFFFFFFF, 0x31) == 0x7C231048;
    assert ByTable(0x7C231048, 0x32) == 0xB0ACBB32;
    assert ByTable(0xB0ACBB32, 0x33) == 0x77B79C2D;
    assert ByTable(0x77B79C2D, 0x34) == 0x641C1F5C;
    assert ByTable(0x641C1F5C, 0x35) == 0x340AC5E3;
    assert ByTable(0x340AC5E3, 0x36) == 0xF68D2C9E;
    assert ByTable(0xF68D2C9E, 0x37) == 0xAFFC9660;
    assert ByTable(0xAFFC9660, 0x38) == 0x651F2550;
    assert ByTable(0x651F2550, 0x39) == 0x340BC6D9;
    hide ByTable;
    var s := DIGITS;
    assert forall k :: 0 <= k < 9 ==> s[k..][0] == s[k] && s[k..][1..] == s[k + 1..];
    assert s[9..] == [] && s[0..] == s;
    assert Bytes(0x340BC6D9, s[9..]) == 0x340BC6D9;
    assert Bytes(0x651F2550, s[8..]) == 0x340BC6D9;
    assert Bytes(0xAFFC9660, s[7..]) == 0x340BC6D9;
    assert Bytes(0xF68D2C9E, s[6..]) == 0x340BC6D9;
    assert Bytes(0x340AC5E3, s[5..]) == 0x340BC6D9;
    assert Bytes(0x641C1F5C, s[4..]) == 0x340BC6D9;
    assert Bytes(0x77B79C2D, s[3..]) == 0x340BC6D9;
    assert Bytes(0xB0ACBB32, s[2..]) == 0x340BC6D9;
    assert Bytes(0x7C231048, s[1..]) == 0x340BC6D9;
    assert Bytes(0xFFFFFFFF, s[0..]) == 0x340BC6D9;
  }

  /** The check value of CRC-32 */
  lemma CheckValue()
    ensures Checksum(0, DIGITS) == 0xCBF43926
  {
    hide Feed, Bits, Bytes;
    BytesAreBits(0xFFFFFFFF, DIGITS);
    DigitsLeave();
  }
}
