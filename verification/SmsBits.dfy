/** Bit fields at arbitrary offsets, the most significant bit first, in a byte buffer. */
module SmsBits {
  import opened Arithmetic

  import opened SmsSeptets

  /** The j-th binary digit of val */
  predicate NumberBit(val: nat, j: nat) {
    if j == 0 then val % 2 == 1 else NumberBit(val / 2, j - 1)
  }

  /** A byte as a number, and a number below 256 as a byte */
  function Number(x: bv8): nat { NumberFrom(x, 0) }

  function NumberFrom(x: bv8, b: nat): nat
    requires b <= 8
    decreases 8 - b
  {
    if b == 8 then 0 else 2 * NumberFrom(x, b + 1) + if Bit(x, b) then 1 else 0
  }

  function Byte(n: nat): bv8 {
    (if NumberBit(n, 7) then 128 else 0) | (if NumberBit(n, 6) then 64 else 0)
    | (if NumberBit(n, 5) then 32 else 0) | (if NumberBit(n, 4) then 16 else 0)
    | (if NumberBit(n, 3) then 8 else 0) | (if NumberBit(n, 2) then 4 else 0)
    | (if NumberBit(n, 1) then 2 else 0) | (if NumberBit(n, 0) then 1 else 0)
  }

  lemma ByteBits(n: nat, j: nat)
    requires j < 8
    ensures Bit(Byte(n), j) == NumberBit(n, j)
  {
    hide NumberBit;
  }

  lemma MaskBits(j: nat, i: nat)
    requires j < 8 && i < 8
    ensures Bit(Mask(j), i) == (i == j)
  {
  }

  /** Two numbers of n bits with the same bits are the same. */
  lemma {:induction false} SameNumber(a: nat, b: nat, n: nat)
    requires a < Pow2(n) && b < Pow2(n) && forall j :: 0 <= j < n ==> NumberBit(a, j) == NumberBit(b, j)
    ensures a == b
  {
    if n > 0 {
      assert NumberBit(a, 0) == NumberBit(b, 0);
      forall j | 0 <= j < n - 1
        ensures NumberBit(a / 2, j) == NumberBit(b / 2, j)
      {
        assert NumberBit(a, j + 1) == NumberBit(b, j + 1);
      }
      SameNumber(a / 2, b / 2, n - 1);
    }
  }

  lemma {:induction false} NumberFromBits(x: bv8, b: nat, j: nat)
    requires b + j < 8
    ensures NumberBit(NumberFrom(x, b), j) == Bit(x, b + j)
    decreases j
  {
    hide Bit;
    if j > 0 { NumberFromBits(x, b + 1, j - 1); }
  }

  lemma {:induction false} NumberFits(x: bv8, b: nat)
    requires b <= 8
    ensures NumberFrom(x, b) < Pow2(8 - b)
    decreases 8 - b
  {
    hide Bit;
    if b < 8 { NumberFits(x, b + 1); }
  }

  lemma Pow2Of8()
    ensures Pow2(8) == 256 && Pow2(7) == 128 && Pow2(5) == 32
  {
    assert Pow2(4) == 16;
  }

  /** Stored and read again, a number below 256 is the same. */
  lemma NumberOfByte(n: nat)
    requires n < 256
    ensures Number(Byte(n)) == n
  {
    hide Byte;
    Pow2Of8();
    NumberFits(Byte(n), 0);
    forall j | 0 <= j < 8
      ensures NumberBit(Number(Byte(n)), j) == NumberBit(n, j)
    {
      NumberFromBits(Byte(n), 0, j);
      ByteBits(n, j);
    }
    SameNumber(Number(Byte(n)), n, 8);
  }

  // ----------------------------------------------------------------- bit fields

  /** getvalue_of_bit */
  predicate BitAt(s: seq<bv8>, k: nat)
    requires k < 8 * |s|
  {
    Bit(s[k / 8], 7 - k % 8)
  }

  /** The number in a field of n bits, the most significant one first */
  function Field(s: seq<bv8>, start: nat, n: nat): nat
    requires start + n <= 8 * |s|
  {
    if n == 0 then 0 else 2 * Field(s, start, n - 1) + if BitAt(s, start + n - 1) then 1 else 0
  }

  lemma {:induction false} FieldBits(s: seq<bv8>, start: nat, n: nat, j: nat)
    requires start + n <= 8 * |s| && j < n
    ensures NumberBit(Field(s, start, n), j) == BitAt(s, start + n - 1 - j)
  {
    hide BitAt;
    if j > 0 { FieldBits(s, start, n - 1, j - 1); }
  }

  /** The low n bits of val stand in the field. */
  ghost predicate Holds(s: seq<bv8>, start: nat, n: nat, val: nat) {
    start + n <= 8 * |s| && forall j :: 0 <= j < n ==> BitAt(s, start + n - 1 - j) == NumberBit(val, j)
  }

  /** A field that holds the low bits of a number reads as that number modulo its width. */
  lemma {:induction false} FieldOfHeld(s: seq<bv8>, start: nat, n: nat, val: nat)
    requires Holds(s, start, n, val)
    ensures Field(s, start, n) == val % Pow2(n)
  {
    hide BitAt;
    if n > 0 {
      assert BitAt(s, start + n - 1 - 0) == NumberBit(val, 0);
      forall j | 0 <= j < n - 1
        ensures BitAt(s, start + n - 2 - j) == NumberBit(val / 2, j)
      {
        assert BitAt(s, start + n - 1 - (j + 1)) == NumberBit(val, j + 1);
      }
      FieldOfHeld(s, start, n - 1, val / 2);
      HalfModulo(val, Pow2(n - 1));
    }
  }

  lemma HalfModulo(val: nat, m: nat)
    requires m >= 1
    ensures val % (2 * m) == 2 * (val / 2 % m) + val % 2
  {
    var q := val / 2 / m;
    var r := val / 2 % m;
    assert val / 2 == m * q + r;
    assert val == 2 * m * q + (2 * r + val % 2);
    Remainder(val, 2 * m, q, 2 * r + val % 2);
  }

  // -------------------------------------------------------------- the functions

  /** setvalue_of_bit: a zero changes nothing, since the mask it clears with is shifted from
      the zero itself. */
  method SetValueOfBit(a: array<bv8>, base: nat, b: nat, val: bool)
    requires base + b / 8 < a.Length
    modifies a
    ensures forall k :: 0 <= k < 8 * a.Length ==> BitAt(a[..], k) == (old(BitAt(a[..], k)) || (val && k == 8 * base + b))
    ensures forall x :: 0 <= x < a.Length && x != base + b / 8 ==> a[x] == old(a[x])
  {
    hide Bit;
    var at := base + b / 8;
    if val {
      a[at] := Or(a[at], Mask(7 - b % 8));
    } else {
      a[at] := a[at] & 0xFF;
    }
    forall k | 0 <= k < 8 * a.Length
      ensures BitAt(a[..], k) == (old(BitAt(a[..], k)) || (val && k == 8 * base + b))
    {
      if k / 8 == at && val {
        OrBits(old(a[at]), Mask(7 - b % 8), 7 - k % 8);
        MaskBits(7 - b % 8, 7 - k % 8);
      }
    }
  }

  /** setvalue_of_bits */
  method SetValueOfBits(a: array<bv8>, base: nat, sbit: nat, nbits: nat, val: nat)
    requires 8 * base + sbit + nbits <= 8 * a.Length
    modifies a
    ensures forall k :: 0 <= k < 8 * a.Length ==> BitAt(a[..], k) == (old(BitAt(a[..], k)) || Sets(8 * base + sbit, nbits, val, k))
    ensures forall x :: 0 <= x < a.Length && (8 * x + 7 < 8 * base + sbit || 8 * x >= 8 * base + sbit + nbits) ==> a[x] == old(a[x])
  {
    hide BitAt, NumberBit;
    ghost var lo := 8 * base + sbit;
    for i := 0 to nbits
      invariant forall k :: 0 <= k < 8 * a.Length ==> BitAt(a[..], k) == (old(BitAt(a[..], k)) || (Sets(lo, nbits, val, k) && k < lo + i))
      invariant forall x :: 0 <= x < a.Length && (8 * x + 7 < lo || 8 * x >= lo + nbits) ==> a[x] == old(a[x])
    {
      SetValueOfBit(a, base, sbit + i, NumberBit(val, nbits - i - 1));
    }
  }

  /** Bit k is one of the bits of val in the field. */
  predicate Sets(start: nat, n: nat, val: nat, k: nat) {
    start <= k < start + n && NumberBit(val, start + n - 1 - k)
  }

  /** getvalue_of_bits */
  method GetValueOfBits(s: seq<bv8>, base: nat, sbit: nat, nbits: nat) returns (val: nat)
    requires 8 * base + sbit + nbits <= 8 * |s|
    ensures val == Field(s, 8 * base + sbit, nbits)
  {
    hide BitAt;
    val := 0;
    for i := 0 to nbits
      invariant val == Field(s, 8 * base + sbit, i) * Pow2(nbits - i)
    {
      var bit := if BitAt(s, 8 * base + sbit + i) then 1 else 0;
      Doubles(Field(s, 8 * base + sbit, i), bit, nbits - i);
      val := val + bit * Pow2(nbits - i - 1);
    }
  }

  lemma Doubles(f: nat, bit: nat, n: nat)
    requires n > 0
    ensures f * Pow2(n) + bit * Pow2(n - 1) == (2 * f + bit) * Pow2(n - 1)
  {
    assert Pow2(n) == 2 * Pow2(n - 1);
  }

  /** The field reads back what was set exactly when no bit was set there before that the value
      does not have: setting never clears. */
  lemma SetThenGet(was: seq<bv8>, s: seq<bv8>, start: nat, n: nat, val: nat)
    requires |s| == |was| && start + n <= 8 * |s|
    requires forall k :: 0 <= k < 8 * |s| ==> BitAt(s, k) == (BitAt(was, k) || Sets(start, n, val, k))
    ensures Field(s, start, n) == val % Pow2(n) <==> forall k :: start <= k < start + n && BitAt(was, k) ==> Sets(start, n, val, k)
  {
    hide BitAt, NumberBit;
    if forall k :: start <= k < start + n && BitAt(was, k) ==> Sets(start, n, val, k) {
      assert forall j :: 0 <= j < n ==> BitAt(s, start + n - 1 - j) == NumberBit(val, j);
      FieldOfHeld(s, start, n, val);
    } else {
      var k :| start <= k < start + n && BitAt(was, k) && !Sets(start, n, val, k);
      var j := start + n - 1 - k;
      FieldBits(s, start, n, j);
      ModuloBit(val, n, j);
      assert NumberBit(Field(s, start, n), j) && !NumberBit(val % Pow2(n), j);
    }
  }

  lemma {:induction false} ModuloBit(val: nat, n: nat, j: nat)
    requires j < n
    ensures NumberBit(val % Pow2(n), j) == NumberBit(val, j)
  {
    HalfModulo(val, Pow2(n - 1));
    HalfOf(val % Pow2(n), val / 2 % Pow2(n - 1), val % 2);
    hide Pow2;
    if j > 0 { ModuloBit(val / 2, n - 1, j - 1); }
  }

  lemma HalfOf(r: nat, half: nat, low: nat)
    requires r == 2 * half + low && low < 2
    ensures r / 2 == half && r % 2 == low
  {
  }

  lemma {:induction false} FieldSame(s: seq<bv8>, t: seq<bv8>, start: nat, n: nat)
    requires |s| == |t| && start + n <= 8 * |s| && forall k :: start <= k < start + n ==> BitAt(s, k) == BitAt(t, k)
    ensures Field(s, start, n) == Field(t, start, n)
  {
    hide BitAt;
    if n > 0 { FieldSame(s, t, start, n - 1); }
  }
}
