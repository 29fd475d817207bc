/** CRC-32: the table-driven, unrolled form against a shift register that takes one bit at a
    time (section 8 of RFC 1952), and the errors it is sure to find. */
module Crc32 {

  const POLYNOMIAL: bv32 := 0xEDB88320

  /** Addition of polynomials over GF(2); a function, so that proofs can keep off the bits. */
  function Plus(a: bv32, b: bv32): bv32 { a ^ b }

  /** One step of the register: multiplication by x modulo the polynomial, bits reversed */
  function T(c: bv32): bv32 {
    if c & 1 == 1 then Plus(POLYNOMIAL, c >> 1) else c >> 1
  }

  function Steps(c: bv32, n: nat): bv32 {
    if n == 0 then c else T(Steps(c, n - 1))
  }

  /** The register takes in a bit. */
  function Shift(c: bv32, bit: bool): bv32 { T(Plus(c, if bit then 1 else 0)) }

  function Feed(c: bv32, bits: seq<bool>): bv32
    decreases bits
  {
    if bits == [] then c else Feed(Shift(c, bits[0]), bits[1..])
  }

  /** The bits of a byte, the least significant one first */
  function BitsOf(b: bv8): (r: seq<bool>)
    ensures |r| == 8
  {
    [b & 1 != 0, b & 2 != 0, b & 4 != 0, b & 8 != 0, b & 16 != 0, b & 32 != 0, b & 64 != 0, b & 128 != 0]
  }

  function Bits(data: seq<bv8>): (r: seq<bool>)
    ensures |r| == 8 * |data|
    decreases data
  {
    if data == [] then [] else BitsOf(data[0]) + Bits(data[1..])
  }

  /** The checksum of data, one bit after the other, starting from another checksum */
  function Checksum(crc: bv32, data: seq<bv8>): bv32 {
    Inverted(Feed(Inverted(crc), Bits(data)))
  }

  function Inverted(c: bv32): bv32 { c ^ 0xFFFFFFFF }

  // ------------------------------------------------------------------ addition

  lemma PlusIs(a: bv32, b: bv32)
    ensures Plus(a, b) == a ^ b
  {
  }

  lemma PlusAssociates(a: bv32, b: bv32, c: bv32)
    ensures Plus(Plus(a, b), c) == Plus(a, Plus(b, c))
  {
  }

  lemma PlusCommutes(a: bv32, b: bv32)
    ensures Plus(a, b) == Plus(b, a)
  {
  }

  lemma PlusCancels(a: bv32, b: bv32)
    ensures Plus(a, Plus(a, b)) == b && Plus(a, a) == 0 && Plus(a, 0) == a && Plus(0, a) == a
    ensures Plus(a, b) == 0 <==> a == b
  {
  }

  lemma PlusTwice(a: bv32, b: bv32, c: bv32)
    ensures Plus(Plus(a, b), Plus(a, c)) == Plus(b, c)
  {
    hide Plus;
    PlusAssociates(a, b, Plus(a, c));
    PlusAssociates(b, a, c);
    PlusCommutes(a, b);
    PlusAssociates(a, b, c);
    PlusCancels(a, Plus(b, c));
  }

  lemma XorShifts(a: bv32, b: bv32)
    ensures (a ^ b) >> 1 == (a >> 1) ^ (b >> 1)
  {
  }

  lemma PlusShifts(a: bv32, b: bv32)
    ensures Plus(a, b) >> 1 == Plus(a >> 1, b >> 1)
  {
    hide Plus;
    PlusIs(a, b);
    PlusIs(a >> 1, b >> 1);
    XorShifts(a, b);
  }

  lemma PlusLowBit(a: bv32, b: bv32)
    ensures Plus(a, b) & 1 == Plus(a & 1, b & 1)
    ensures a & 1 == 0 || a & 1 == 1
    ensures Plus(0, 0) == 0 && Plus(1, 0) == 1 && Plus(0, 1) == 1 && Plus(1, 1) == 0
  {
  }

  // --------------------------------------------------- the register is linear

  lemma TLinear(a: bv32, b: bv32)
    ensures T(Plus(a, b)) == Plus(T(a), T(b))
  {
    hide Plus;
    PlusShifts(a, b);
    PlusLowBit(a, b);
    PlusLowBit(b, a);
    PlusAssociates(POLYNOMIAL, a >> 1, b >> 1);
    PlusAssociates(a >> 1, POLYNOMIAL, b >> 1);
    PlusCommutes(a >> 1, POLYNOMIAL);
    PlusTwice(POLYNOMIAL, a >> 1, b >> 1);
  }

  lemma {:induction false} StepsLinear(a: bv32, b: bv32, n: nat)
    ensures Steps(Plus(a, b), n) == Plus(Steps(a, n), Steps(b, n))
  {
    hide T, Plus;
    if n > 0 {
      StepsLinear(a, b, n - 1);
      TLinear(Steps(a, n - 1), Steps(b, n - 1));
    }
  }

  lemma TInjective(a: bv32, b: bv32)
    requires T(a) == T(b)
    ensures a == b
  {
  }

  lemma {:induction false} StepsInjective(a: bv32, b: bv32, n: nat)
    requires Steps(a, n) == Steps(b, n)
    ensures a == b
  {
    hide T, Plus;
    if n > 0 {
      TInjective(Steps(a, n - 1), Steps(b, n - 1));
      StepsInjective(a, b, n - 1);
    }
  }

  lemma {:induction false} StepsInside(c: bv32, n: nat)
    ensures Steps(T(c), n) == Steps(c, n + 1)
  {
    hide T, Plus;
    if n > 0 { StepsInside(c, n - 1); }
  }

  // ------------------------------------------------------ a byte from the table

  function Two(c: bv32): bv32 { T(T(c)) }

  function Four(c: bv32): bv32 { Two(Two(c)) }

  function Eight(c: bv32): bv32 { Four(Four(c)) }

  /** DO1: the entry for the low byte, byte of the buffer added, on top of the register without it */
  function ByTable(c: bv32, b: bv8): bv32 {
    Plus(Eight(Plus(c, b as bv32) & 0xFF), c >> 8)
  }

  lemma TwoLinear(a: bv32, b: bv32)
    ensures Two(Plus(a, b)) == Plus(Two(a), Two(b))
  {
    hide T, Plus;
    TLinear(a, b);
    TLinear(T(a), T(b));
  }

  lemma FourLinear(a: bv32, b: bv32)
    ensures Four(Plus(a, b)) == Plus(Four(a), Four(b))
  {
    hide Two, Plus;
    TwoLinear(a, b);
    TwoLinear(Two(a), Two(b));
  }

  lemma EightLinear(a: bv32, b: bv32)
    ensures Eight(Plus(a, b)) == Plus(Eight(a), Eight(b))
  {
    hide Four, Plus;
    FourLinear(a, b);
    FourLinear(Four(a), Four(b));
  }

  /** Below a run of zeros the register only shifts. */
  lemma TOfZeros(c: bv32)
    ensures c & 1 == 0 ==> T(c) == c >> 1
    ensures c & 3 == 0 ==> c & 1 == 0 && (c >> 1) & 1 == 0 && c >> 1 >> 1 == c >> 2
  {
  }

  lemma TwoOfZeros(c: bv32)
    ensures c & 3 == 0 ==> Two(c) == c >> 2
    ensures c & 0xF == 0 ==> c & 3 == 0 && (c >> 2) & 3 == 0 && c >> 2 >> 2 == c >> 4
  {
    hide T, Plus;
    TOfZeros(c);
    TOfZeros(c >> 1);
  }

  lemma FourOfZeros(c: bv32)
    ensures c & 0xF == 0 ==> Four(c) == c >> 4
    ensures c & 0xFF == 0 ==> c & 0xF == 0 && (c >> 4) & 0xF == 0 && c >> 4 >> 4 == c >> 8
  {
    hide Two, Plus;
    TwoOfZeros(c);
    TwoOfZeros(c >> 2);
  }

  lemma EightOfZeros(c: bv32)
    requires c & 0xFF == 0
    ensures Eight(c) == c >> 8
  {
    hide Four, Plus;
    FourOfZeros(c);
    FourOfZeros(c >> 4);
  }

  lemma SplitLow(w: bv32)
    ensures Plus(w & 1, w & 0xFFFFFFFE) == w && (w & 0xFFFFFFFE) & 1 == 0 && (w & 0xFFFFFFFE) >> 1 == w >> 1
    ensures w & 1 == (if w & 1 != 0 then 1 else 0)
  {
  }

  /** The lowest bit of w goes in now, the others wait. */
  lemma OneBit(c: bv32, w: bv32)
    ensures T(Plus(c, w)) == Plus(Shift(c, w & 1 != 0), w >> 1)
  {
    hide T, Plus;
    SplitLow(w);
    PlusAssociates(c, w & 1, w & 0xFFFFFFFE);
    TLinear(Plus(c, w & 1), w & 0xFFFFFFFE);
    TOfZeros(w & 0xFFFFFFFE);
  }

  function Feed2(c: bv32, b0: bool, b1: bool): bv32 { Shift(Shift(c, b0), b1) }

  function Feed4(c: bv32, b0: bool, b1: bool, b2: bool, b3: bool): bv32 { Feed2(Feed2(c, b0, b1), b2, b3) }

  function Feed8(c: bv32, s: seq<bool>): bv32
    requires |s| == 8
  {
    Feed4(Feed4(c, s[0], s[1], s[2], s[3]), s[4], s[5], s[6], s[7])
  }

  lemma TwoBits(c: bv32, w: bv32)
    ensures Two(Plus(c, w)) == Plus(Feed2(c, w & 1 != 0, (w >> 1) & 1 != 0), w >> 2)
  {
    hide T, Shift, Plus;
    OneBit(c, w);
    OneBit(Shift(c, w & 1 != 0), w >> 1);
    ShiftTwice(w);
  }

  lemma ShiftTwice(w: bv32)
    ensures w >> 1 >> 1 == w >> 2 && w >> 2 >> 1 == w >> 3 && w >> 2 >> 2 == w >> 4
    ensures w >> 4 >> 1 == w >> 5 && w >> 4 >> 2 == w >> 6 && w >> 4 >> 3 == w >> 7 && w >> 4 >> 4 == w >> 8
  {
  }

  lemma FourBits(c: bv32, w: bv32)
    ensures Four(Plus(c, w)) == Plus(Feed4(c, w & 1 != 0, (w >> 1) & 1 != 0, (w >> 2) & 1 != 0, (w >> 3) & 1 != 0), w >> 4)
  {
    hide Two, Feed2, Plus;
    TwoBits(c, w);
    TwoBits(Feed2(c, w & 1 != 0, (w >> 1) & 1 != 0), w >> 2);
    ShiftTwice(w);
  }

  function LowBits(w: bv32): (r: seq<bool>)
    ensures |r| == 8
  {
    [w & 1 != 0, (w >> 1) & 1 != 0, (w >> 2) & 1 != 0, (w >> 3) & 1 != 0,
     (w >> 4) & 1 != 0, (w >> 5) & 1 != 0, (w >> 6) & 1 != 0, (w >> 7) & 1 != 0]
  }

  lemma EightBits(c: bv32, w: bv32)
    ensures Eight(Plus(c, w)) == Plus(Feed8(c, LowBits(w)), w >> 8)
  {
    hide Four, Feed4, Plus;
    FourBits(c, w);
    FourBits(Feed4(c, w & 1 != 0, (w >> 1) & 1 != 0, (w >> 2) & 1 != 0, (w >> 3) & 1 != 0), w >> 4);
    ShiftTwice(w);
  }

  /** The bits of a byte, as a word shifted down */
  lemma BitsOfWord(b: bv8)
    ensures BitsOf(b) == LowBits(b as bv32) && (b as bv32) >> 8 == 0
  {
  }

  lemma SplitByte(sum: bv32)
    ensures Plus(sum & 0xFF, sum & 0xFFFFFF00) == sum && (sum & 0xFFFFFF00) & 0xFF == 0 && (sum & 0xFFFFFF00) >> 8 == sum >> 8
  {
  }

  lemma ByteStaysLow(c: bv32, b: bv8)
    ensures Plus(c, b as bv32) >> 8 == c >> 8
  {
  }

  /** The lowest byte takes the table, the others only shift. */
  lemma EightSplits(c: bv32)
    ensures Eight(c) == Plus(Eight(c & 0xFF), c >> 8)
  {
    hide Eight, Plus;
    SplitByte(c);
    EightOfParts(c, c & 0xFF, c & 0xFFFFFF00);
  }

  lemma EightOfParts(c: bv32, low: bv32, high: bv32)
    requires c == Plus(low, high) && high & 0xFF == 0 && high >> 8 == c >> 8
    ensures Eight(c) == Plus(Eight(low), c >> 8)
  {
    hide Eight, Plus;
    EightLinear(low, high);
    EightOfZeros(high);
  }

  lemma PlusZero(a: bv32)
    ensures Plus(a, 0) == a
  {
  }

  /** The eight bits of a byte, one after the other, do what one look at the table does. */
  lemma ByteByTable(c: bv32, b: bv8)
    ensures Feed8(c, BitsOf(b)) == ByTable(c, b)
  {
    hide Feed8, Eight, BitsOf, LowBits, Plus;
    BitsOfWord(b);
    EightBits(c, b as bv32);
    PlusZero(Feed8(c, BitsOf(b)));
    EightSplits(Plus(c, b as bv32));
    ByteStaysLow(c, b);
  }

  // -------------------------------------------------------- bit by bit, all along

  lemma FeedOne(c: bv32, s: seq<bool>, more: seq<bool>)
    requires s != []
    ensures Feed(c, s + more) == Feed(Shift(c, s[0]), s[1..] + more)
  {
    hide Shift;
    assert (s + more)[1..] == s[1..] + more;
  }

  lemma FeedTwo(c: bv32, s: seq<bool>, more: seq<bool>)
    requires |s| >= 2
    ensures Feed(c, s + more) == Feed(Feed2(c, s[0], s[1]), s[2..] + more)
  {
    hide Shift, Feed;
    FeedOne(c, s, more);
    FeedOne(Shift(c, s[0]), s[1..], more);
    assert s[1..][1..] == s[2..];
  }

  lemma FeedFour(c: bv32, s: seq<bool>, more: seq<bool>)
    requires |s| >= 4
    ensures Feed(c, s + more) == Feed(Feed4(c, s[0], s[1], s[2], s[3]), s[4..] + more)
  {
    hide Feed2, Feed;
    FeedTwo(c, s, more);
    FeedTwo(Feed2(c, s[0], s[1]), s[2..], more);
    assert s[2..][2..] == s[4..];
  }

  lemma FeedEight(c: bv32, s: seq<bool>, more: seq<bool>)
    requires |s| == 8
    ensures Feed(c, s + more) == Feed(Feed8(c, s), more)
  {
    hide Feed4, Feed;
    FeedFour(c, s, more);
    FeedFour(Feed4(c, s[0], s[1], s[2], s[3]), s[4..], more);
    assert s[4..][4..] + more == more;
  }

  /** The register after some bytes, one look at the table for each */
  function Bytes(c: bv32, data: seq<bv8>): bv32
    decreases data
  {
    if data == [] then c else Bytes(ByTable(c, data[0]), data[1..])
  }

  /** Table CRC equals bitwise CRC. */
  lemma {:induction false} BytesAreBits(c: bv32, data: seq<bv8>)
    ensures Bytes(c, data) == Feed(c, Bits(data))
    decreases data
  {
    hide Feed8, ByTable, BitsOf;
    if data != [] {
      FeedEight(c, BitsOf(data[0]), Bits(data[1..]));
      ByteByTable(c, data[0]);
      BytesAreBits(ByTable(c, data[0]), data[1..]);
    }
  }

  lemma {:induction false} BytesMore(c: bv32, data: seq<bv8>, b: bv8)
    ensures Bytes(c, data + [b]) == ByTable(Bytes(c, data), b)
    decreases data
  {
    hide ByTable;
    if data == [] {
      assert [b][1..] == [] && data + [b] == [b];
    } else {
      assert (data + [b])[1..] == data[1..] + [b];
      BytesMore(ByTable(c, data[0]), data[1..], b);
    }
  }

  lemma {:induction false} FeedJoin(c: bv32, a: seq<bool>, b: seq<bool>)
    ensures Feed(c, a + b) == Feed(Feed(c, a), b)
    decreases a
  {
    hide Shift;
    if a == [] {
      assert a + b == b;
    } else {
      FeedOne(c, a, b);
      FeedJoin(Shift(c, a[0]), a[1..], b);
    }
  }

  lemma {:induction false} BitsJoin(a: seq<bv8>, b: seq<bv8>)
    ensures Bits(a + b) == Bits(a) + Bits(b)
    decreases a
  {
    hide BitsOf;
    if a == [] {
      assert a + b == b && [] + Bits(b) == Bits(b);
    } else {
      assert (a + b)[1..] == a[1..] + b;
      BitsJoin(a[1..], b);
      assert BitsOf(a[0]) + (Bits(a[1..]) + Bits(b)) == BitsOf(a[0]) + Bits(a[1..]) + Bits(b);
    }
  }

  /** Chaining: going on from a checksum is the checksum of both parts. */
  lemma Chains(crc: bv32, a: seq<bv8>, b: seq<bv8>)
    ensures Checksum(Checksum(crc, a), b) == Checksum(crc, a + b)
  {
    hide Feed, Bits, Inverted;
    BitsJoin(a, b);
    FeedJoin(Inverted(crc), Bits(a), Bits(b));
    Undone(Feed(Inverted(crc), Bits(a)));
  }

  lemma Undone(c: bv32)
    ensures Inverted(Inverted(c)) == c
  {
  }

  // --------------------------------------------------------- errors it finds

  /** Where two streams differ */
  function Diff(x: seq<bool>, y: seq<bool>): (e: seq<bool>)
    requires |x| == |y|
    ensures |e| == |x| && forall k :: 0 <= k < |x| ==> e[k] == (x[k] != y[k])
  {
    seq(|x|, k requires 0 <= k < |x| => x[k] != y[k])
  }

  lemma ShiftDiff(c: bv32, d: bv32, p: bool, q: bool)
    ensures Plus(Shift(c, p), Shift(d, q)) == Shift(Plus(c, d), p != q)
  {
    hide T, Plus;
    var a, b: bv32 := if p then 1 else 0, if q then 1 else 0;
    TLinear(Plus(c, a), Plus(d, b));
    PlusExchange(c, a, d, b);
    PlusLowBit(0, 0);
  }

  lemma PlusExchange(a: bv32, b: bv32, c: bv32, d: bv32)
    ensures Plus(Plus(a, b), Plus(c, d)) == Plus(Plus(a, c), Plus(b, d))
  {
    hide Plus;
    PlusAssociates(a, b, Plus(c, d));
    PlusAssociates(b, c, d);
    PlusCommutes(b, c);
    PlusAssociates(c, b, d);
    PlusAssociates(a, c, Plus(b, d));
  }

  /** The difference of two registers is the register of the difference. */
  lemma {:induction false} FeedDiff(c: bv32, d: bv32, x: seq<bool>, y: seq<bool>)
    requires |x| == |y|
    ensures Plus(Feed(c, x), Feed(d, y)) == Feed(Plus(c, d), Diff(x, y))
    decreases x
  {
    hide Shift, Plus;
    if x != [] {
      ShiftDiff(c, d, x[0], y[0]);
      FeedDiff(Shift(c, x[0]), Shift(d, y[0]), x[1..], y[1..]);
      assert Diff(x, y)[1..] == Diff(x[1..], y[1..]);
    }
  }

  lemma ShiftPlain(c: bv32)
    ensures Shift(c, false) == T(c) && T(0) == 0 && (T(c) == 0 ==> c == 0)
  {
  }

  lemma {:induction false} FeedZeros(c: bv32, e: seq<bool>)
    requires true !in e
    ensures Feed(c, e) == 0 <==> c == 0
    decreases e
  {
    hide Shift, T;
    if e != [] {
      assert !e[0];
      ShiftPlain(c);
      FeedZeros(T(c), e[1..]);
    }
  }

  /** 1, doubled k times */
  function Power(k: nat): bv32 { if k == 0 then 1 else Power(k - 1) << 1 }

  lemma {:induction false} PowerSplits(j: nat, k: nat)
    requires Power(k) == 0
    ensures Power(j + k) == 0
  {
    if j > 0 { PowerSplits(j - 1, k); }
  }

  lemma PowerFits(k: nat)
    requires k < 32
    ensures Power(k) != 0
  {
    assert Power(4) == 0x10;
    assert Power(8) == 0x100;
    assert Power(12) == 0x1000;
    assert Power(16) == 0x10000;
    assert Power(20) == 0x100000;
    assert Power(24) == 0x1000000;
    assert Power(28) == 0x10000000;
    assert Power(31) == 0x80000000;
    if Power(k) == 0 { PowerSplits(31 - k, k); }
  }

  lemma DoubledSteps(w: bv32)
    ensures w << 1 != 0 && w & (w - 1) == 0 ==> T(w << 1) == w
    ensures w & (w - 1) == 0 ==> (w << 1) & ((w << 1) - 1) == 0
  {
  }

  lemma {:induction false} PowerSteps(k: nat)
    requires k < 32
    ensures Steps(Power(k), k) == 1 && SingleBit(Power(k))
  {
    hide T;
    if k > 0 {
      PowerSteps(k - 1);
      PowerFits(k);
      DoubledSteps(Power(k - 1));
      StepsInside(Power(k), k - 1);
    }
  }

  /** All bits of a are below w, a power of two. */
  function Double(w: bv32): bv32 { w << 1 }

  predicate Below(a: bv32, w: bv32) { a & (w - 1) == a }

  predicate SingleBit(w: bv32) { w != 0 && w & (w - 1) == 0 }

  /** Adding a new highest bit */
  lemma HigherBit(a: bv32, w: bv32)
    requires SingleBit(w) && Below(a, w)
    ensures Below(a, Double(w)) && Below(Plus(a, w), Double(w)) && Plus(a, w) != 0
  {
  }

  /** a has no bit from the n-th on. */
  predicate Within(a: bv32, n: nat) { Below(a, Power(n)) }

  lemma HigherWithin(b: bv32, n: nat)
    requires n < 32 && Within(b, n)
    ensures Within(b, n + 1) && Within(Plus(b, Power(n)), n + 1) && Plus(b, Power(n)) != 0
  {
    hide Plus, Power, Below, SingleBit, Double, Steps;
    PowerSteps(n);
    PowerDoubles(n);
    HigherBit(b, Power(n));
  }

  lemma PackBit(b: bv32, n: nat, bit: bool) returns (a: bv32)
    requires n < 32 && Within(b, n)
    ensures Shift(Steps(b, n), bit) == Steps(a, n + 1) && Within(a, n + 1)
    ensures if bit then a != 0 else a == b
  {
    hide T, Plus, Power, Within;
    HigherWithin(b, n);
    PowerSteps(n);
    StepsLinear(b, Power(n), n);
    PlusZero(Steps(b, n));
    a := if bit then Plus(b, Power(n)) else b;
  }

  /** Up to 32 bits into an empty register are a word moved on by as many steps. */
  lemma {:induction false} PackedWindow(e: seq<bool>) returns (a: bv32)
    requires |e| <= 32
    ensures Feed(0, e) == Steps(a, |e|) && Within(a, |e|) && (a == 0 <==> true !in e)
    decreases |e|
  {
    if e == [] {
      a := 0;
    } else {
      hide Shift, Steps, Within;
      var n := |e| - 1;
      var b := PackedWindow(e[..n]);
      assert e == e[..n] + [e[n]];
      FeedJoin(0, e[..n], [e[n]]);
      assert [e[n]][1..] == [];
      a := PackBit(b, n, e[n]);
    }
  }

  lemma PowerDoubles(n: nat)
    ensures Power(n + 1) == Double(Power(n))
  {
  }

  lemma {:induction false} StepsOfZero(n: nat)
    ensures Steps(0, n) == 0
  {
    if n > 0 { StepsOfZero(n - 1); }
  }

  /** Bits before and behind a difference do not matter. */
  lemma OnlyWindow(e: seq<bool>, i: nat, j: nat)
    requires i <= j <= |e| && forall k :: 0 <= k < |e| && e[k] ==> i <= k < j
    ensures Feed(0, e) == 0 <==> Feed(0, e[i..j]) == 0
  {
    hide Feed;
    var before, window, behind := e[..i], e[i..j], e[j..];
    assert e == before + (window + behind);
    FeedJoin(0, before, window + behind);
    FeedJoin(0, window, behind);
    FeedZeros(0, before);
    FeedZeros(Feed(0, window), behind);
  }

  /** A difference inside 32 consecutive bits leaves the registers different. */
  lemma BurstShows(e: seq<bool>, i: nat)
    requires i <= |e| && true in e && forall k :: 0 <= k < |e| && e[k] ==> i <= k < i + 32
    ensures Feed(0, e) != 0
  {
    hide Feed, Steps;
    var j := if i + 32 <= |e| then i + 32 else |e|;
    OnlyWindow(e, i, j);
    var a := PackedWindow(e[i..j]);
    var k :| 0 <= k < |e| && e[k];
    assert e[i..j][k - i];
    StepsOfZero(j - i);
    if Steps(a, j - i) == 0 { StepsInjective(a, 0, j - i); }
  }

  lemma BitsOfInjective(a: bv8, b: bv8)
    requires BitsOf(a) == BitsOf(b)
    ensures a == b
  {
    var s, t := BitsOf(a), BitsOf(b);
    assert s[0] == t[0] && s[1] == t[1] && s[2] == t[2] && s[3] == t[3];
    assert s[4] == t[4] && s[5] == t[5] && s[6] == t[6] && s[7] == t[7];
  }

  lemma {:induction false} BitsInjective(x: seq<bv8>, y: seq<bv8>)
    requires Bits(x) == Bits(y) && |x| == |y|
    ensures x == y
    decreases x
  {
    hide BitsOf;
    if x != [] {
      assert BitsOf(x[0]) == Bits(x)[..8] && BitsOf(y[0]) == Bits(y)[..8];
      assert Bits(x[1..]) == Bits(x)[8..] && Bits(y[1..]) == Bits(y)[8..];
      BitsOfInjective(x[0], y[0]);
      BitsInjective(x[1..], y[1..]);
    }
  }

  /** Every burst error is found: two buffers of the same length that differ, and only inside
      some 32 consecutive bits, never have the same checksum. */
  lemma BurstFound(crc: bv32, x: seq<bv8>, y: seq<bv8>, i: nat)
    requires |x| == |y| && x != y && i <= 8 * |x|
    requires forall k :: 0 <= k < 8 * |x| && Bits(x)[k] != Bits(y)[k] ==> i <= k < i + 32
    ensures Checksum(crc, x) != Checksum(crc, y)
  {
    hide Feed, Bits, Inverted, Plus, Diff;
    if Bits(x) == Bits(y) { BitsInjective(x, y); }
    SameSumExactly(crc, x, y);
    DiffFinds(Bits(x), Bits(y));
    BurstShows(Diff(Bits(x), Bits(y)), i);
  }

  lemma DiffFinds(x: seq<bool>, y: seq<bool>)
    requires |x| == |y| && x != y
    ensures true in Diff(x, y) && |Diff(x, y)| == |x| && forall k :: 0 <= k < |x| && Diff(x, y)[k] ==> x[k] != y[k]
  {
    var k :| 0 <= k < |x| && x[k] != y[k];
    assert Diff(x, y)[k];
  }

  /** In particular, errors inside four consecutive bytes are found. */
  lemma FourBytesFound(crc: bv32, x: seq<bv8>, y: seq<bv8>, i: nat)
    requires |x| == |y| && x != y && i <= |x|
    requires forall k :: 0 <= k < |x| && x[k] != y[k] ==> i <= k < i + 4
    ensures Checksum(crc, x) != Checksum(crc, y)
  {
    hide Checksum, BitsOf, Bits;
    forall k | 0 <= k < 8 * |x| && Bits(x)[k] != Bits(y)[k]
      ensures 8 * i <= k < 8 * i + 32
    {
      BitAt(x, k);
      BitAt(y, k);
    }
    BurstFound(crc, x, y, 8 * i);
  }

  lemma {:induction false} BitAt(data: seq<bv8>, k: nat)
    requires k < 8 * |data|
    ensures Bits(data)[k] == BitsOf(data[k / 8])[k % 8]
    decreases data
  {
    hide BitsOf;
    if k >= 8 { BitAt(data[1..], k - 8); }
  }

  /** Two buffers of one length have the same checksum exactly when their difference, on its own,
      leaves an empty register empty. */
  lemma SameSumExactly(crc: bv32, x: seq<bv8>, y: seq<bv8>)
    requires |x| == |y|
    ensures Checksum(crc, x) == Checksum(crc, y) <==> Feed(0, Diff(Bits(x), Bits(y))) == 0
  {
    hide Feed, Bits, Inverted, Plus, Diff;
    FeedDiff(Inverted(crc), Inverted(crc), Bits(x), Bits(y));
    PlusCancels(Inverted(crc), Inverted(crc));
    PlusCancels(Feed(Inverted(crc), Bits(x)), Feed(Inverted(crc), Bits(y)));
    Undone(Feed(Inverted(crc), Bits(x)));
    Undone(Feed(Inverted(crc), Bits(y)));
  }

  /** 32 is the most there is, and the polynomial the only exception at 33: two buffers of any
      length that differ, and only inside some 33 consecutive bits, have the same checksum exactly
      when those bits differ by the polynomial. */
  lemma LongerBurstExactly(crc: bv32, x: seq<bv8>, y: seq<bv8>, i: nat)
    requires |x| == |y| && x != y && i + 33 <= 8 * |x|
    requires forall k :: 0 <= k < 8 * |x| && Bits(x)[k] != Bits(y)[k] ==> i <= k < i + 33
    ensures Checksum(crc, x) == Checksum(crc, y) <==> Diff(Bits(x), Bits(y))[i..i + 33] == PolynomialBits()
  {
    hide Feed, Bits, Inverted, Plus, Diff, PolynomialBits;
    if Bits(x) == Bits(y) { BitsInjective(x, y); }
    SameSumExactly(crc, x, y);
    var e := Diff(Bits(x), Bits(y));
    DiffFinds(Bits(x), Bits(y));
    OnlyWindow(e, i, i + 33);
    var k :| 0 <= k < |e| && e[k];
    assert e[i..i + 33][k - i];
    WindowExactly(e[i..i + 33]);
  }

  /** The polynomial as a difference: its highest power comes first. */
  function PolynomialBits(): (e: seq<bool>)
    ensures |e| == 33
  {
    Bits(FIVE_BYTES)[..33]
  }

  /** Of all differences of 33 bits only the polynomial leaves an empty register empty. */
  lemma WindowExactly(e: seq<bool>)
    requires |e| == 33 && true in e
    ensures Feed(0, e) == 0 <==> e == PolynomialBits()
  {
    hide Feed, Bits, Plus, Diff, PolynomialBits;
    var p := PolynomialBits();
    PolynomialMissed();
    if e[0] {
      FeedDiff(0, 0, e, p);
      PlusCancels(0, 0);
      PlusCancels(Feed(0, e), Feed(0, p));
      if e != p {
        DiffFinds(e, p);
        BurstShows(Diff(e, p), 1);
      }
    } else {
      BurstShows(e, 1);
    }
  }

  lemma PolynomialMissed()
    ensures Feed(0, PolynomialBits()) == 0 && PolynomialBits()[0]
  {
    hide Feed, Bytes;
    var bits := Bits(FIVE_BYTES);
    BytesAreBits(0, FIVE_BYTES);
    PolynomialVanishes();
    PolynomialEnds();
    assert bits == bits[..33] + bits[33..];
    FeedJoin(0, bits[..33], bits[33..]);
    FeedZeros(Feed(0, bits[..33]), bits[33..]);
  }

  lemma PolynomialEnds()
    ensures true !in Bits(FIVE_BYTES)[33..] && Bits(FIVE_BYTES)[0]
  {
    hide BitsOf;
    assert BitsOf(0x41)[0] && true !in BitsOf(0x01)[1..] by { EndBytes(); }
    forall k | 33 <= k < 40
      ensures !Bits(FIVE_BYTES)[k]
    {
      BitAt(FIVE_BYTES, k);
      assert !BitsOf(0x01)[1..][k - 33];
    }
    BitAt(FIVE_BYTES, 0);
  }

  lemma EndBytes()
    ensures BitsOf(0x41)[0] && true !in BitsOf(0x01)[1..]
  {
  }

  /** 1 and the polynomial behind it, the least significant bit first */
  const FIVE_BYTES: seq<bv8> := [0x41, 0x06, 0x71, 0xDB, 0x01]

  lemma PolynomialVanishes()
    ensures Bytes(0, FIVE_BYTES) == 0
  {
    assert ByTable(0, 0x41) == 0x01DB7106;
    assert ByTable(0x01DB7106, 0x06) == 0x0001DB71;
    assert ByTable(0x0001DB71, 0x71) == 0x000001DB;
    assert ByTable(0x000001DB, 0xDB) == 0x00000001;
    assert ByTable(0x00000001, 0x01) == 0;
    hide ByTable;
    var s := FIVE_BYTES;
    assert s[1..] == [0x06, 0x71, 0xDB, 0x01] && s[1..][1..] == [0x71, 0xDB, 0x01];
    assert s[1..][1..][1..] == [0xDB, 0x01] && s[1..][1..][1..][1..] == [0x01] && s[1..][1..][1..][1..][1..] == [];
  }
}
