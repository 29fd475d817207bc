/** CDMA SMS user data: what encode_cdma_sms lays out in the bearer data, and what
    _decode_cdma_sms_message reads there (section 4.5.2 of 3GPP2 C.S0015-B). */
module SmsCdma {
  import opened Arithmetic

  import opened SmsSeptets
  import opened SmsBits

  const BEARER_DATA_MAX := 255

  /** The message format of the modem */
  const ENCODING_ASCII := 1
  const ENCODING_IA5 := 2
  const ENCODING_OCTET := 3
  const ENCODING_LATIN := 4
  const ENCODING_LATIN_HEBREW := 5
  const ENCODING_UNICODE := 6

  /** The type of a message from the network (table 4.5.1-1 of the standard) */
  const DELIVER := 1

  /** The encodings of the standard */
  const CDMA_OCTET := 0
  const CDMA_ASCII := 2
  const CDMA_UNICODE := 4

  /** What the decoder writes for a message it cannot read */
  const BAD: seq<bv8> := [0x62, 0x61, 0x64, 0x20, 0x73, 0x6D, 0x73, 0x20, 0x65, 0x6E, 0x63, 0x6F, 0x64, 0x69, 0x6E, 0x67]

  // ----------------------------------------------------------------- decoding

  /** The message, its format and its length; Overrun where the bearer data ends too early. */
  datatype Decoded = Decoded(text: seq<bv8>, fmt: nat, count: nat) | Overrun

  /** The user data sub-parameter whose value starts at byte p */
  function UserData(s: seq<bv8>, p: nat, d: Decoded): (r: Decoded)
    requires d.Decoded?
  {
    if 8 * p + 13 > 8 * |s| then Overrun
    else
      var encoding := Field(s, 8 * p, 5);
      var nchars := Field(s, 8 * p + 5, 8);
      if encoding == CDMA_ASCII then
        if 8 * p + 13 + 7 * nchars > 8 * |s| then Overrun
        else Decoded(Chars(s, 8 * p + 13, 7, nchars), ENCODING_ASCII, nchars)
      else if encoding == CDMA_UNICODE then
        if 8 * p + 13 + 16 * nchars > 8 * |s| then Overrun
        else Decoded(Chars(s, 8 * p + 13, 8, 2 * nchars), ENCODING_UNICODE, 2 * nchars)
      else d.(text := BAD, fmt := ENCODING_ASCII)
  }

  /** n fields of some width, one after the other */
  function Chars(s: seq<bv8>, start: nat, width: nat, n: nat): (r: seq<bv8>)
    requires start + width * n <= 8 * |s|
    ensures |r| == n
  {
    if n == 0 then []
    else
      assert width * n == width * (n - 1) + width;
      Chars(s, start, width, n - 1) + [Byte(Field(s, start + width * (n - 1), width))]
  }

  /** The walk over the sub-parameters, from byte i on */
  function Walk(s: seq<bv8>, i: nat, length: nat, d: Decoded): Decoded
    decreases length - i
  {
    if i >= length || d.Overrun? then d
    else if i + 1 >= |s| then Overrun
    else Walk(s, i + Number(s[i + 1]) + 2, length, if s[i] == 1 then UserData(s, i + 2, d) else d)
  }

  function DecodedMessage(s: seq<bv8>, length: int, d: Decoded): Decoded
    requires d.Decoded?
  {
    if length <= 0 then d.(text := BAD, fmt := ENCODING_ASCII) else Walk(s, 0, length, d)
  }

  /** _decode_cdma_sms_message; d is what the three out-parameters held before. */
  method DecodeMessage(s: seq<bv8>, length: int, d: Decoded) returns (r: Decoded)
    requires d.Decoded?
    ensures r == DecodedMessage(s, length, d)
  {
    hide Field, Chars, Number;
    r := d;
    var i: nat := 0;
    if length <= 0 {
      r := r.(text := BAD, fmt := ENCODING_ASCII);
    }
    while i < length
      invariant r.Decoded? && DecodedMessage(s, length, d) == (if length <= 0 then r else Walk(s, i, length, r))
      decreases length - i
    {
      if i + 1 >= |s| {
        return Overrun;
      }
      var sublength := Number(s[i + 1]);
      if s[i] == 1 {
        r := DecodeUserData(s, i + 2, r);
        if r.Overrun? {
          return;
        }
      }
      i := i + sublength + 2;
    }
  }

  method DecodeUserData(s: seq<bv8>, p: nat, d: Decoded) returns (r: Decoded)
    requires d.Decoded?
    ensures r == UserData(s, p, d)
  {
    hide Field, Chars, BitAt;
    if 8 * p + 13 > 8 * |s| {
      return Overrun;
    }
    var encoding := GetValueOfBits(s, p, 0, 5);
    var nchars := GetValueOfBits(s, p, 5, 8);
    if encoding != CDMA_ASCII && encoding != CDMA_UNICODE {
      return d.(text := BAD, fmt := ENCODING_ASCII);
    }
    var text: seq<bv8> := [];
    NoChars(s, 8 * p + 13, 7);
    NoChars(s, 8 * p + 13, 8);
    if encoding == CDMA_ASCII {
      if 8 * p + 13 + 7 * nchars > 8 * |s| {
        return Overrun;
      }
      for j := 0 to nchars
        invariant text == Chars(s, 8 * p + 13, 7, j)
      {
        MoreChars(s, 8 * p + 13, 7, j);
        var c := GetValueOfBits(s, p + 1, 5 + 7 * j, 7);
        text := text + [Byte(c)];
      }
      r := Decoded(text, ENCODING_ASCII, nchars);
    } else {
      if 8 * p + 13 + 16 * nchars > 8 * |s| {
        return Overrun;
      }
      for j := 0 to nchars
        invariant text == Chars(s, 8 * p + 13, 8, 2 * j)
      {
        MoreChars(s, 8 * p + 13, 8, 2 * j);
        var c := GetValueOfBits(s, p + 1, 5 + 16 * j, 8);
        text := text + [Byte(c)];
        MoreChars(s, 8 * p + 13, 8, 2 * j + 1);
        c := GetValueOfBits(s, p + 1, 5 + 16 * j + 8, 8);
        text := text + [Byte(c)];
      }
      r := Decoded(text, ENCODING_UNICODE, 2 * nchars);
    }
  }

  lemma NoChars(s: seq<bv8>, start: nat, width: nat)
    requires start <= 8 * |s|
    ensures Chars(s, start, width, 0) == []
  {
  }

  lemma MoreChars(s: seq<bv8>, start: nat, width: nat, n: nat)
    requires start + width * n + width <= 8 * |s|
    ensures width * (n + 1) == width * n + width
    ensures Chars(s, start, width, n + 1) == Chars(s, start, width, n) + [Byte(Field(s, start + width * n, width))]
  {
    assert width * (n + 1) == width * n + width;
  }

  // ----------------------------------------------------------------- encoding

  /** The value length of the user data sub-parameter */
  function UserSize(format: int, n: nat): nat {
    if format == ENCODING_ASCII then (n * 7 + 5) / 8 + (if (n * 7 + 5) % 8 != 0 then 1 else 0) + 1
    else if format == ENCODING_UNICODE then n + 2
    else 0
  }

  /** Message identifier, user data and deferred delivery time, with their headers */
  function BearerSize(format: int, n: nat): nat { 5 + UserSize(format, n) + 2 + 8 }

  function Width(format: int): nat { if format == ENCODING_ASCII then 7 else 8 }

  function Chunks(format: int, n: nat): nat { if format == ENCODING_ASCII then n else n / 2 }

  /** Bits 0 to 4 of the user data are the encoding, 5 to 12 the number of characters, and the
      characters follow. */
  ghost predicate UserLaid(s: seq<bv8>, format: int, extra: seq<bv8>)
    requires |s| == BEARER_DATA_MAX
  {
    && BearerSize(format, |extra|) <= |s| && 69 + Width(format) * |extra| <= 8 * |s|
    && Field(s, 56, 5) == (if format == ENCODING_ASCII then CDMA_ASCII else CDMA_UNICODE)
    && Field(s, 61, 8) == Chunks(format, |extra|) % 256
    && CharsLaid(s, format, extra, |extra|)
  }

  ghost predicate CharsLaid(s: seq<bv8>, format: int, extra: seq<bv8>, m: nat)
    requires m <= |extra| && 69 + Width(format) * |extra| <= 8 * |s|
  {
    forall i :: 0 <= i < m ==> CharAt(s, format, extra, i)
  }

  predicate CharAt(s: seq<bv8>, format: int, extra: seq<bv8>, i: nat)
    requires i < |extra| && 69 + Width(format) * |extra| <= 8 * |s|
  {
    Room(Width(format), i, |extra|);
    Field(s, 69 + Width(format) * i, Width(format)) == Number(extra[i]) % Pow2(Width(format))
  }

  lemma Room(w: nat, i: nat, n: nat)
    requires i < n
    ensures w * i + w <= w * n
  {
    Gap(w, i, n);
  }

  /** The three sub-parameters */
  ghost predicate Laid(s: seq<bv8>, format: int, extra: seq<bv8>) {
    && |s| == BEARER_DATA_MAX && BearerSize(format, |extra|) <= |s|
    && s[0] == 0 && Number(s[1]) == 3 && s[5] == 1 && Number(s[6]) == UserSize(format, |extra|)
    && (var p := 7 + UserSize(format, |extra|); s[p] == 6 && Number(s[p + 1]) == 6)
    && if format == ENCODING_ASCII || format == ENCODING_UNICODE then UserLaid(s, format, extra)
       else Field(s, 56, 5) == CDMA_OCTET
  }

  /** The top bits of a byte are a field. */
  lemma {:induction false} ByteIsField(s: seq<bv8>, p: nat, n: nat)
    requires p < |s| && n <= 8
    ensures Field(s, 8 * p, n) == TopBits(s[p], n)
  {
    hide Bit;
    if n > 0 {
      assert (8 * p + n - 1) / 8 == p && (8 * p + n - 1) % 8 == n - 1;
      ByteIsField(s, p, n - 1);
    }
  }

  function TopBits(x: bv8, n: nat): nat
    requires n <= 8
  {
    if n == 0 then 0 else 2 * TopBits(x, n - 1) + if Bit(x, 8 - n) then 1 else 0
  }

  lemma KnownBytes()
    ensures TopBits(0x10, 5) == CDMA_ASCII && TopBits(0x20, 5) == CDMA_UNICODE && TopBits(6, 5) == CDMA_OCTET && TopBits(0x10, 4) == 1
    ensures !Bit(0x10, 2) && !Bit(0x10, 1) && !Bit(0x10, 0) && !Bit(0x20, 2) && !Bit(0x20, 1) && !Bit(0x20, 0)
  {
    assert TopBits(0x10, 2) == 0 && TopBits(0x20, 2) == 0 && TopBits(6, 2) == 0;
    assert TopBits(0x10, 4) == 1 && TopBits(0x20, 3) == 1 && TopBits(0x20, 4) == 2 && TopBits(6, 4) == 0;
  }

  /** Every bit from k on is 0. */
  ghost predicate ClearFrom(s: seq<bv8>, k: nat) {
    forall j :: k <= j < 8 * |s| ==> !BitAt(s, j)
  }

  /** Setting a field in cleared bits: it holds the value, everything before it stays, and what is
      behind it is still clear. */
  method Lay(a: array<bv8>, ghost at: nat, base: nat, sbit: nat, nbits: nat, val: nat)
    requires at == 8 * base + sbit && at + nbits <= 8 * a.Length && ClearFrom(a[..], at)
    modifies a
    ensures Field(a[..], at, nbits) == val % Pow2(nbits) && ClearFrom(a[..], at + nbits)
    ensures forall k :: 0 <= k < at ==> BitAt(a[..], k) == old(BitAt(a[..], k))
    ensures forall x :: 0 <= x < a.Length && 8 * x + 7 < at ==> a[x] == old(a[x])
  {
    hide BitAt, NumberBit, Field;
    ghost var was := a[..];
    SetValueOfBits(a, base, sbit, nbits, val);
    SetThenGet(was, a[..], at, nbits, val);
  }

  /** The user data of a 7-bit or 16-bit message in a cleared buffer */
  method LayUser(a: array<bv8>, format: int, extra: seq<bv8>)
    requires a.Length == BEARER_DATA_MAX && BearerSize(format, |extra|) <= a.Length
    requires format == ENCODING_ASCII || format == ENCODING_UNICODE
    requires ClearFrom(a[..], 56)
    modifies a
    ensures UserLaid(a[..], format, extra) && ClearFrom(a[..], 69 + Width(format) * |extra|)
    ensures forall x :: 0 <= x < 7 ==> a[x] == old(a[x])
  {
    hide BitAt, Field, Number, TopBits;
    var n := |extra|;
    var w := Width(format);
    ghost var head, was := a[..7], a[..];
    a[7] := if format == ENCODING_ASCII then 0x10 else 0x20;
    ClearAfterHead(was, a[..]);
    ByteIsField(a[..], 7, 5);
    KnownBytes();
    ghost var s := a[..];
    Lay(a, 61, 7, 5, 8, Chunks(format, n));
    FieldSame(s, a[..], 56, 5);
    Pow2Of8();
    for i := 0 to n
      invariant a[..7] == head && ClearFrom(a[..], 69 + w * i) && 69 + w * n <= 8 * a.Length
      invariant Field(a[..], 56, 5) == (if format == ENCODING_ASCII then CDMA_ASCII else CDMA_UNICODE)
      invariant Field(a[..], 61, 8) == Chunks(format, n) % 256
      invariant CharsLaid(a[..], format, extra, i)
    {
      Room(w, i, n);
      s := a[..];
      Lay(a, 69 + w * i, 7, 13 + w * i, w, Number(extra[i]));
      FieldSame(s, a[..], 56, 5);
      FieldSame(s, a[..], 61, 8);
      CharsKept(s, a[..], format, extra, i);
      assert w * (i + 1) == w * i + w;
    }
  }

  lemma CharsKept(s: seq<bv8>, t: seq<bv8>, format: int, extra: seq<bv8>, i: nat)
    requires i < |extra| && |s| == |t| && 69 + Width(format) * |extra| <= 8 * |s| && CharsLaid(s, format, extra, i) && CharAt(t, format, extra, i)
    requires forall k :: 0 <= k < 69 + Width(format) * i ==> BitAt(t, k) == BitAt(s, k)
    ensures CharsLaid(t, format, extra, i + 1)
  {
    hide BitAt, Field, Number;
    var w := Width(format);
    forall m | 0 <= m < i
      ensures CharAt(t, format, extra, m)
    {
      assert CharAt(s, format, extra, m);
      Room(w, m, i);
      FieldSame(s, t, 69 + w * m, w);
    }
  }

  lemma ClearAfterHead(was: seq<bv8>, s: seq<bv8>)
    requires |s| == |was| == BEARER_DATA_MAX && ClearFrom(was, 56) && (s[7] == 0x10 || s[7] == 0x20)
    requires forall x :: 8 <= x < |s| ==> s[x] == was[x]
    ensures ClearFrom(s, 61)
  {
    KnownBytes();
    hide Bit;
    forall k | 61 <= k < 8 * |s|
      ensures !BitAt(s, k)
    {
      if k >= 64 { assert BitAt(s, k) == BitAt(was, k); }
    }
  }

  lemma ClearBuffer(s: seq<bv8>)
    requires |s| == BEARER_DATA_MAX && forall x :: 7 <= x < |s| ==> s[x] == 0
    ensures ClearFrom(s, 56)
  {
    NoBits();
    hide Bit;
  }

  /** The last bytes are written behind the user data. */
  lemma UserKept(s: seq<bv8>, t: seq<bv8>, format: int, extra: seq<bv8>)
    requires |s| == |t| == BEARER_DATA_MAX && UserLaid(s, format, extra) && (format == ENCODING_ASCII || format == ENCODING_UNICODE)
    requires forall x :: 7 <= x < 7 + UserSize(format, |extra|) ==> t[x] == s[x]
    ensures UserLaid(t, format, extra)
  {
    hide Bit, Field, Number;
    var n := |extra|;
    assert 69 + Width(format) * n <= 8 * (7 + UserSize(format, n));
    assert forall k :: 56 <= k < 69 + Width(format) * n ==> BitAt(t, k) == BitAt(s, k);
    FieldSame(s, t, 56, 5);
    FieldSame(s, t, 61, 8);
    forall i | 0 <= i < n
      ensures CharAt(t, format, extra, i)
    {
      assert CharAt(s, format, extra, i);
      Room(Width(format), i, n);
      FieldSame(s, t, 69 + Width(format) * i, Width(format));
    }
  }

  /** The first byte of the user data for the encodings whose characters are not laid out */
  function OtherByte(format: int): bv8 {
    if format == ENCODING_IA5 then 0x18
    else if format == ENCODING_OCTET then 0
    else if format == ENCODING_LATIN then 0x40
    else if format == ENCODING_LATIN_HEBREW then 0x38
    else 0x48
  }

  /** encode_cdma_sms, on the parsed fields: format, message length and time. The message has to
      fit the bearer data. */
  method EncodeMessage(format: int, extra: seq<bv8>, time: seq<bv8>) returns (a: array<bv8>, length: nat)
    requires |time| == 6 && BearerSize(format, |extra|) <= BEARER_DATA_MAX
    ensures fresh(a) && length == BearerSize(format, |extra|) && Laid(a[..], format, extra)
    ensures var p := 9 + UserSize(format, |extra|); forall i :: 0 <= i < 6 ==> a[p + i] == time[i]
    ensures Field(a[..], 16, 4) == DELIVER && Field(a[..], 20, 20) == 0
    ensures forall k :: 69 + Width(format) * |extra| <= k < 8 * (7 + UserSize(format, |extra|)) ==> !BitAt(a[..], k)
    ensures forall x :: length <= x < a.Length ==> a[x] == 0
    ensures format == 1 ==> AsciiLaid(a[..], extra)
    ensures format == 6 ==> OctetsLaid(a[..], extra)
  {
    hide Field, BitAt, Number, UserLaid, Byte, TopBits, ClearFrom, AsciiLaid, OctetsLaid;
    a := NewBearer();
    var bytes := UserSize(format, |extra|);
    NumberOfByte(bytes);
    KnownNumbers();
    if format == ENCODING_ASCII || format == ENCODING_UNICODE {
      a[6] := Byte(bytes);
      ClearBuffer(a[..]);
      LayUser(a, format, extra);
    } else {
      a[7] := OtherByte(format);
    }
    ghost var s := a[..];
    AddTime(a, 7 + bytes, time);
    if format == ENCODING_ASCII || format == ENCODING_UNICODE {
      UserKept(s, a[..], format, extra);
      ClearBehind(s, a[..], 69 + Width(format) * |extra|, 7 + bytes);
      LaidByBits(a[..], format, extra);
    } else {
      ByteIsField(a[..], 7, 5);
      KnownBytes();
    }
    IdentifierLaid(a[..]);
    length := 5 + bytes + 2 + 8;
  }

  /** A cleared buffer with three bytes written from p on is clear before and behind them. */
  lemma ClearBehind(s: seq<bv8>, t: seq<bv8>, k: nat, p: nat)
    requires |s| == |t| && ClearFrom(s, k) && k <= 8 * p + 64 && p + 8 <= |s|
    requires forall x :: 0 <= x < p || p + 8 <= x < |s| ==> t[x] == s[x]
    ensures forall j :: k <= j < 8 * p ==> !BitAt(t, j)
    ensures forall x :: p + 8 <= x < |t| ==> t[x] == 0
  {
    hide Bit;
    forall x | p + 8 <= x < |t|
      ensures t[x] == 0
    {
      forall j | 0 <= j < 8
        ensures !Bit(s[x], j)
      {
        assert !BitAt(s, 8 * x + 7 - j);
      }
      NoBits();
      SameByte(s[x], 0);
    }
    forall j | k <= j < 8 * p
      ensures !BitAt(t, j)
    {
      assert BitAt(t, j) == BitAt(s, j);
    }
  }

  /** Encoding 2 and the number of characters modulo 256, then 7 bits for each of them, in as many
      bytes as these bits need */
  ghost predicate AsciiLaid(s: seq<bv8>, extra: seq<bv8>) {
    && |s| == BEARER_DATA_MAX && 69 + 7 * |extra| <= 8 * |s|
    && Field(s, 56, 5) == 2 && Field(s, 61, 8) == |extra| % 256
    && (forall i :: 0 <= i < |extra| ==> SevenBits(s, extra, i))
    && 13 + 7 * |extra| <= 8 * Number(s[6]) < 13 + 7 * |extra| + 8
  }

  predicate SevenBits(s: seq<bv8>, extra: seq<bv8>, i: nat)
    requires i < |extra| && 69 + 7 * |extra| <= 8 * |s|
  {
    Field(s, 69 + 7 * i, 7) == Number(extra[i]) % 128
  }

  /** Encoding 4 and half the number of bytes modulo 256, then the bytes */
  ghost predicate OctetsLaid(s: seq<bv8>, extra: seq<bv8>) {
    && |s| == BEARER_DATA_MAX && 69 + 8 * |extra| <= 8 * |s|
    && Field(s, 56, 5) == 4 && Field(s, 61, 8) == |extra| / 2 % 256
    && (forall i :: 0 <= i < |extra| ==> EightBits(s, extra, i))
    && 13 + 8 * |extra| <= 8 * Number(s[6]) < 13 + 8 * |extra| + 8
  }

  predicate EightBits(s: seq<bv8>, extra: seq<bv8>, i: nat)
    requires i < |extra| && 69 + 8 * |extra| <= 8 * |s|
  {
    Field(s, 69 + 8 * i, 8) == Number(extra[i])
  }

  lemma LaidByBits(s: seq<bv8>, format: int, extra: seq<bv8>)
    requires |s| == BEARER_DATA_MAX && BearerSize(format, |extra|) <= |s| && (format == ENCODING_ASCII || format == ENCODING_UNICODE)
    requires UserLaid(s, format, extra) && Number(s[6]) == UserSize(format, |extra|)
    ensures format == 1 ==> AsciiLaid(s, extra)
    ensures format == 6 ==> OctetsLaid(s, extra)
  {
    hide Field, Number, Pow2;
    Pow2Of8();
    forall i | 0 <= i < |extra|
      ensures format == 1 ==> SevenBits(s, extra, i)
      ensures format == 6 ==> EightBits(s, extra, i)
    {
      assert CharAt(s, format, extra, i);
      WholeNumber(extra[i]);
    }
  }

  /** Type deliver, message identifier 0, no header */
  lemma IdentifierLaid(s: seq<bv8>)
    requires |s| == BEARER_DATA_MAX && s[2] == 0x10 && s[3] == 0 && s[4] == 0
    ensures Field(s, 16, 4) == DELIVER && Field(s, 20, 20) == 0
  {
    hide Field, TopBits;
    ByteIsField(s, 2, 4);
    KnownBytes();
    NoBits();
    hide Bit;
    forall k | 20 <= k < 40
      ensures !BitAt(s, k)
    {
    }
    FieldOfClear(s, 20, 20);
  }

  lemma {:induction false} FieldOfClear(s: seq<bv8>, start: nat, n: nat)
    requires start + n <= 8 * |s| && forall k :: start <= k < start + n ==> !BitAt(s, k)
    ensures Field(s, start, n) == 0
  {
    hide BitAt;
    if n > 0 { FieldOfClear(s, start, n - 1); }
  }

  /** The memset, the message identifier and the header of the user data */
  method NewBearer() returns (a: array<bv8>)
    ensures fresh(a) && a.Length == BEARER_DATA_MAX && a[0] == 0 && a[1] == 3 && a[5] == 1
    ensures a[2] == 0x10 && a[3] == 0 && a[4] == 0
    ensures forall x :: 6 <= x < a.Length ==> a[x] == 0
  {
    a := new bv8[BEARER_DATA_MAX](i => 0);
    a[0], a[1] := 0, 3;
    a[2] := 0x10;
    a[3], a[4] := 0, 0;
    a[5] := 1;
  }

  /** The deferred delivery time */
  method AddTime(a: array<bv8>, p: nat, time: seq<bv8>)
    requires p + 8 <= a.Length && |time| == 6
    modifies a
    ensures a[p] == 6 && a[p + 1] == 6 && forall i :: 0 <= i < 6 ==> a[p + 2 + i] == time[i]
    ensures forall x :: 0 <= x < p || p + 8 <= x < a.Length ==> a[x] == old(a[x])
  {
    a[p] := 6;
    a[p + 1] := 6;
    a[p + 2] := time[0];
    a[p + 3] := time[1];
    a[p + 4] := time[2];
    a[p + 5] := time[3];
    a[p + 6] := time[4];
    a[p + 7] := time[5];
  }

  lemma KnownNumbers()
    ensures Number(3) == 3 && Number(6) == 6 && Number(0) == 0
  {
    assert NumberFrom(3, 4) == 0 && NumberFrom(6, 4) == 0 && NumberFrom(0, 4) == 0;
    assert NumberFrom(3, 2) == 0 && NumberFrom(6, 2) == 1 && NumberFrom(0, 2) == 0;
  }

  // ---------------------------------------------------------------- round trip

  /** The characters that come back: as many as the 8-bit count says, cut to their width. */
  function Returned(format: int, extra: seq<bv8>): (r: seq<bv8>) {
    if format == ENCODING_ASCII then seq(|extra| % 256, i requires 0 <= i < |extra| % 256 => Cut(extra[i]))
    else extra[..2 * (|extra| / 2)]
  }

  lemma {:induction false} CharsReturned(s: seq<bv8>, format: int, extra: seq<bv8>, m: nat)
    requires |s| == BEARER_DATA_MAX && (format == ENCODING_ASCII || format == ENCODING_UNICODE) && UserLaid(s, format, extra)
    requires m <= |Returned(format, extra)| && 69 + Width(format) * m <= 8 * |s|
    ensures Chars(s, 69, Width(format), m) == Returned(format, extra)[..m]
    decreases m
  {
    hide Field, Cut, Byte, Chars, Returned;
    var w, r := Width(format), Returned(format, extra);
    if m == 0 {
      NoChars(s, 69, w);
    } else {
      Gap(w, m - 1, m);
      MoreChars(s, 69, w, m - 1);
      CharsReturned(s, format, extra, m - 1);
      ReturnedAt(format, extra, m - 1);
      assert CharAt(s, format, extra, m - 1);
      assert r[..m] == r[..m - 1] + [r[m - 1]];
    }
  }

  lemma ReturnedAt(format: int, extra: seq<bv8>, i: nat)
    requires (format == ENCODING_ASCII || format == ENCODING_UNICODE) && i < |Returned(format, extra)|
    ensures i < |extra| && Returned(format, extra)[i] == Byte(Number(extra[i]) % Pow2(Width(format)))
  {
    hide Byte, Cut, Number;
    assert i < |extra|;
    ByteOfNumber(extra[i]);
  }

  lemma ByteOfNumber(x: bv8)
    ensures Byte(Number(x) % Pow2(8)) == x && Byte(Number(x) % Pow2(7)) == Cut(x)
  {
    hide Byte, Bit, Cut, Pow2, Number;
    NumberFits(x, 0);
    Pow2Of8();
    assert Number(x) < 256 by { WholeNumber(x); }
    WholeByte(x);
    CutByte(x);
  }

  lemma WholeNumber(x: bv8)
    ensures Number(x) < 256
  {
    NumberFits(x, 0);
    Pow2Of8();
  }

  lemma WholeByte(x: bv8)
    ensures Byte(Number(x)) == x
  {
    hide Byte, Bit;
    forall j | 0 <= j < 8
      ensures Bit(Byte(Number(x)), j) == Bit(x, j)
    {
      ByteBits(Number(x), j);
      NumberFromBits(x, 0, j);
    }
    SameByte(Byte(Number(x)), x);
  }

  lemma CutByte(x: bv8)
    ensures Byte(Number(x) % 128) == Cut(x)
  {
    hide Byte, Bit, Cut;
    Pow2Of8();
    var low := Number(x) % 128;
    forall j | 0 <= j < 8
      ensures Bit(Byte(low), j) == Bit(Cut(x), j)
    {
      ByteBits(low, j);
      CutBits(x, j);
      if j < 7 {
        ModuloBit(Number(x), 7, j);
        NumberFromBits(x, 0, j);
      } else {
        SmallNumber(low);
      }
    }
    SameByte(Byte(low), Cut(x));
  }

  lemma SmallNumber(n: nat)
    requires n < 128
    ensures !NumberBit(n, 7)
  {
    var h := n / 2 / 2 / 2;
    assert NumberBit(n, 7) == NumberBit(n / 2, 6) == NumberBit(n / 2 / 2, 5) == NumberBit(h, 4);
    assert NumberBit(h, 4) == NumberBit(h / 2, 3) == NumberBit(h / 2 / 2, 2) == NumberBit(h / 2 / 2 / 2, 1) == NumberBit(h / 2 / 2 / 2 / 2, 0);
  }

  lemma SameByte(x: bv8, y: bv8)
    requires forall b :: 0 <= b < 8 ==> Bit(x, b) == Bit(y, b)
    ensures x == y
  {
    assert Bit(x, 0) == Bit(y, 0) && Bit(x, 1) == Bit(y, 1) && Bit(x, 2) == Bit(y, 2) && Bit(x, 3) == Bit(y, 3);
    assert Bit(x, 4) == Bit(y, 4) && Bit(x, 5) == Bit(y, 5) && Bit(x, 6) == Bit(y, 6) && Bit(x, 7) == Bit(y, 7);
  }

  /** Decoding what was encoded: the same format, and the characters that come back. */
  lemma DecodesTo(s: seq<bv8>, format: int, extra: seq<bv8>, d: Decoded)
    requires Laid(s, format, extra) && (format == ENCODING_ASCII || format == ENCODING_UNICODE) && d.Decoded?
    ensures DecodedMessage(s, BearerSize(format, |extra|), d)
      == Decoded(Returned(format, extra), format, |Returned(format, extra)|)
  {
    WalkLaid(s, format, extra, d);
    hide *;
    UserReturned(s, format, extra, d);
  }

  lemma WalkLaid(s: seq<bv8>, format: int, extra: seq<bv8>, d: Decoded)
    requires Laid(s, format, extra) && d.Decoded?
    ensures DecodedMessage(s, BearerSize(format, |extra|), d) == UserData(s, 7, d)
  {
    hide UserData, Number, UserLaid, Field;
    var n, p := BearerSize(format, |extra|), 7 + UserSize(format, |extra|);
    assert Walk(s, 0, n, d) == Walk(s, 5, n, d);
    var u := UserData(s, 7, d);
    assert Walk(s, 5, n, d) == Walk(s, p, n, u);
    if u.Decoded? {
      assert Walk(s, p, n, u) == Walk(s, n, n, u);
    }
  }

  lemma UserReturned(s: seq<bv8>, format: int, extra: seq<bv8>, d: Decoded)
    requires |s| == BEARER_DATA_MAX && UserLaid(s, format, extra) && (format == ENCODING_ASCII || format == ENCODING_UNICODE) && d.Decoded?
    ensures UserData(s, 7, d) == Decoded(Returned(format, extra), format, |Returned(format, extra)|)
  {
    hide Field, CharsLaid;
    var m := |Returned(format, extra)|;
    CharsReturned(s, format, extra, m);
    assert Returned(format, extra)[..m] == Returned(format, extra);
  }

  /** The round trip, exactly: every 7-bit message of up to 255 characters below 128 and every
      16-bit message of even length comes back as it was, and no other message does. */
  lemma RoundTripExactly(s: seq<bv8>, format: int, extra: seq<bv8>, d: Decoded)
    requires Laid(s, format, extra) && (format == ENCODING_ASCII || format == ENCODING_UNICODE) && d.Decoded?
    ensures DecodedMessage(s, BearerSize(format, |extra|), d) == Decoded(extra, format, |extra|)
       <==> if format == ENCODING_ASCII then |extra| < 256 && Septets(extra) else |extra| % 2 == 0
  {
    hide Laid, DecodedMessage, Cut, Septet;
    DecodesTo(s, format, extra, d);
    forall i | 0 <= i < |extra|
      ensures Cut(extra[i]) == extra[i] <==> Septet(extra[i])
    {
      CutIs(extra[i]);
    }
    var r := Returned(format, extra);
    if format == ENCODING_ASCII && |extra| < 256 {
      assert r == extra <==> forall i :: 0 <= i < |extra| ==> r[i] == extra[i];
    }
  }

  lemma CutIs(x: bv8)
    ensures Cut(x) == x <==> Septet(x)
  {
  }

  /** A message in any other format comes back as unreadable: the sub-parameter behind the user
      data overwrites the byte with the encoding. */
  lemma OtherFormatsAreBad(s: seq<bv8>, format: int, extra: seq<bv8>, d: Decoded)
    requires Laid(s, format, extra) && format != ENCODING_ASCII && format != ENCODING_UNICODE && d.Decoded?
    ensures DecodedMessage(s, BearerSize(format, |extra|), d) == d.(text := BAD, fmt := ENCODING_ASCII)
  {
    WalkLaid(s, format, extra, d);
    hide Walk, Number;
  }
}
