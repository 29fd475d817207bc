/** GSM 7-bit packing: the loops of encode_gsm_sms_pdu and decode_gsm_sms_pdu against the bit
    stream of section 6.1.2.1.1 of 3GPP TS 23.038. */
module SmsSeptets {

  // ------------------------------------------------------------- the bit stream

  function Mask(b: nat): bv8
    requires b < 8
  {
    match b
    case 0 => 1
    case 1 => 2
    case 2 => 4
    case 3 => 8
    case 4 => 16
    case 5 => 32
    case 6 => 64
    case _ => 128
  }

  /** Bit b of an octet, the least significant one being bit 0 */
  predicate Bit(x: bv8, b: nat)
    requires b < 8
  {
    x & Mask(b) != 0
  }

  /** Bit k of a stream of octets */
  predicate OctetBit(data: seq<bv8>, k: nat)
    requires k < 8 * |data|
  {
    Bit(data[k / 8], k % 8)
  }

  /** Bit k of a stream of septets */
  predicate SeptetBit(text: seq<bv8>, k: nat)
    requires k < 7 * |text|
  {
    Bit(text[k / 7], k % 7)
  }

  predicate Septet(x: bv8) { x & 0x80 == 0 }

  predicate Septets(text: seq<bv8>) { forall i :: 0 <= i < |text| ==> Septet(text[i]) }

  /** The octets n septets need */
  function PackedSize(n: nat): nat { (7 * n + 7) / 8 }

  // ------------------------------------------------------------------ one octet

  /** Shifts to the left and to the right */
  function Left(x: bv8, s: nat): bv8
    requires s < 8
  {
    match s
    case 0 => x
    case 1 => x << 1
    case 2 => x << 2
    case 3 => x << 3
    case 4 => x << 4
    case 5 => x << 5
    case 6 => x << 6
    case _ => x << 7
  }

  function Right(x: bv8, s: nat): bv8
    requires s < 8
  {
    match s
    case 0 => x
    case 1 => x >> 1
    case 2 => x >> 2
    case 3 => x >> 3
    case 4 => x >> 4
    case 5 => x >> 5
    case 6 => x >> 6
    case _ => x >> 7
  }

  function Or(x: bv8, y: bv8): bv8 { x | y }

  function Cut(x: bv8): bv8 { x & 0x7F }

  lemma LeftBits(x: bv8, s: nat, b: nat)
    requires s < 8 && b < 8
    ensures Bit(Left(x, s), b) == (s <= b && Bit(x, b - s))
  {
  }

  lemma RightBits(x: bv8, s: nat, b: nat)
    requires s < 8 && b < 8
    ensures Bit(Right(x, s), b) == (b + s < 8 && Bit(x, b + s))
  {
  }

  lemma OrBits(x: bv8, y: bv8, b: nat)
    requires b < 8
    ensures Bit(Or(x, y), b) == (Bit(x, b) || Bit(y, b))
  {
  }

  lemma CutBits(x: bv8, b: nat)
    requires b < 8
    ensures Bit(Cut(x), b) == (b < 7 && Bit(x, b))
    ensures Septet(x) <==> !Bit(x, 7)
  {
  }

  function Pack(cur: bv8, next: bv8, s: nat): bv8
    requires 1 <= s <= 7
  {
    Or(Left(next, s), Right(cur, 7 - s))
  }

  lemma PackBits(cur: bv8, next: bv8, s: nat, c: nat)
    requires 1 <= s <= 7 && c < 8 && Septet(cur)
    ensures Bit(Pack(cur, next, s), c) == if c < s then Bit(cur, c + 7 - s) else Bit(next, c - s)
  {
    hide Bit, Left, Right, Or, Septet;
    OrBits(Left(next, s), Right(cur, 7 - s), c);
    LeftBits(next, s, c);
    RightBits(cur, 7 - s, c);
    CutBits(cur, 7);
  }

  function Unpack(cur: bv8, v: bv8, s: nat): bv8
    requires 1 <= s <= 7
  {
    Or(Cut(Left(cur, s - 1)), v)
  }

  function Carry(cur: bv8, s: nat): bv8
    requires 1 <= s <= 7
  {
    Right(cur, 8 - s)
  }

  lemma UnpackBits(cur: bv8, v: bv8, s: nat, b: nat)
    requires 1 <= s <= 7 && b < 8
    ensures Bit(Unpack(cur, v, s), b) == (Bit(v, b) || (s - 1 <= b < 7 && Bit(cur, b + 1 - s)))
  {
    hide Bit, Left, Cut, Or;
    OrBits(Cut(Left(cur, s - 1)), v, b);
    CutBits(Left(cur, s - 1), b);
    LeftBits(cur, s - 1, b);
  }

  lemma SameBits(x: bv8, y: bv8)
    requires Septet(x) && Septet(y) && forall b :: 0 <= b < 7 ==> Bit(x, b) == Bit(y, b)
    ensures x == y
  {
    assert Bit(x, 0) == Bit(y, 0) && Bit(x, 1) == Bit(y, 1) && Bit(x, 2) == Bit(y, 2) && Bit(x, 3) == Bit(y, 3);
    assert Bit(x, 4) == Bit(y, 4) && Bit(x, 5) == Bit(y, 5) && Bit(x, 6) == Bit(y, 6);
  }

  // ------------------------------------------------------------------ the loops

  /** The packing loop of encode_gsm_sms_pdu: the octets are the bit stream of the septets and, to
      fill the last one, of the byte behind them. */
  method PackText(extra: array<bv8>, n: nat, data: array<bv8>) returns (j: nat)
    requires n < extra.Length && PackedSize(n) <= data.Length && extra != data
    requires Septets(extra[..n])
    modifies data
    ensures j == PackedSize(n)
    ensures Packed(extra[..n + 1], data[..j])
  {
    hide Pack, Bit, Packed, Septet;
    PackedStarts(extra[..n + 1]);
    assert data[..0] == [];
    var i, s := 0, 7;
    j := 0;
    while i < n
      invariant i == 8 * j / 7 && s == 7 - j % 7 && j <= PackedSize(n)
      invariant Packed(extra[..n + 1], data[..j])
      decreases PackedSize(n) - j
    {
      ghost var was := data[..j];
      data[j] := Pack(extra[i], extra[i + 1], s);
      assert Septet(extra[..n][i]);
      assert data[..j + 1] == was + [data[j]];
      PackedOctet(extra[..n + 1], was, data[..j + 1], i, s);
      NextPlace(i, j);
      j := j + 1;
      s := s - 1;
      if s == 0 {
        s := 7;
        i := i + 1;
      }
      i := i + 1;
    }
  }

  /** The octets are the bit stream of the septets. */
  ghost predicate Packed(text: seq<bv8>, data: seq<bv8>) {
    8 * |data| <= 7 * |text| && forall k :: 0 <= k < 8 * |data| ==> OctetBit(data, k) == SeptetBit(text, k)
  }

  lemma PackedStarts(text: seq<bv8>)
    ensures Packed(text, [])
  {
  }

  lemma NextPlace(i: nat, j: nat)
    requires i == 8 * j / 7
    ensures 8 * (j + 1) / 7 == if j % 7 == 6 then i + 2 else i + 1
    ensures (j + 1) % 7 == if j % 7 == 6 then 0 else j % 7 + 1
  {
  }

  /** Where bit c of octet j comes from */
  lemma Place(j: nat, i: nat, c: nat)
    requires i == 8 * j / 7 && c < 8
    ensures j % 7 + c < 7 ==> (8 * j + c) / 7 == i && (8 * j + c) % 7 == j % 7 + c
    ensures j % 7 + c >= 7 ==> (8 * j + c) / 7 == i + 1 && (8 * j + c) % 7 == j % 7 + c - 7
  {
    assert 8 * j + c == 7 * i + j % 7 + c;
  }

  lemma PackedOctet(text: seq<bv8>, was: seq<bv8>, data: seq<bv8>, i: nat, s: nat)
    requires i == 8 * |was| / 7 && s == 7 - |was| % 7 && i + 1 < |text| && Septet(text[i])
    requires data == was + [Pack(text[i], text[i + 1], s)]
    requires Packed(text, was)
    ensures Packed(text, data)
  {
    hide Pack, Bit, Septet;
    var j := |was|;
    forall k | 0 <= k < 8 * |data|
      ensures OctetBit(data, k) == SeptetBit(text, k)
    {
      if k < 8 * j {
        assert OctetBit(data, k) == OctetBit(was, k);
      } else {
        var c := k - 8 * j;
        PackBits(text[i], text[i + 1], s, c);
        assert k / 8 == j && k % 8 == c;
        assert data[j] == Pack(text[i], text[i + 1], s);
        Place(j, i, c);
      }
    }
  }

  /** The unpacking loop of decode_gsm_sms_pdu: the septets are the bit stream of the octets. It may
      fill one place more than asked for. */
  method UnpackText(buf: array<bv8>, n: nat, msg: array<bv8>)
    requires PackedSize(n) <= buf.Length && n < msg.Length && buf != msg
    modifies msg
    ensures Good(buf[..], msg[..n])
  {
    hide Unpack, Carry, Bit, Good;
    var i, j, s := 0, 0, 1;
    var v: bv8 := 0;
    GoodStarts(buf[..]);
    assert msg[..0] == [];
    while j < n
      invariant j == 8 * i / 7 && s == i % 7 + 1 && j <= n + 1
      invariant Carried(buf[..], i, v, s) && Good(buf[..], msg[..j])
      decreases n + 1 - j
    {
      ghost var text := msg[..j];
      Turn(buf[..], text, i, v, s);
      NextPlace(j, i);
      msg[j] := Unpack(buf[i], v, s);
      assert msg[..j + 1] == text + [msg[j]];
      j := j + 1;
      v := Carry(buf[i], s);
      s := s + 1;
      if s == 8 {
        s := 1;
        text := msg[..j];
        msg[j] := v;
        assert msg[..j + 1] == text + [msg[j]];
        j := j + 1;
        v := 0;
        GoodStarts(buf[..]);
      }
      i := i + 1;
    }
    GoodPart(buf[..], msg[..j], n);
    assert msg[..j][..n] == msg[..n];
  }

  /** v holds the s - 1 highest bits of the octet before. */
  ghost predicate Carried(data: seq<bv8>, i: nat, v: bv8, s: nat) {
    1 <= s <= 8 && forall b :: 0 <= b < 8 ==> Bit(v, b) == (b < s - 1 && 0 < i <= |data| && Bit(data[i - 1], b + 9 - s))
  }

  /** One turn of the loop: a septet, and every seventh time another one */
  lemma Turn(data: seq<bv8>, text: seq<bv8>, i: nat, v: bv8, s: nat)
    requires i < |data| && |text| == 8 * i / 7 && s == i % 7 + 1 && Good(data, text) && Carried(data, i, v, s)
    ensures Good(data, text + [Unpack(data[i], v, s)])
    ensures s < 7 ==> Carried(data, i + 1, Carry(data[i], s), s + 1)
    ensures s == 7 ==> Good(data, text + [Unpack(data[i], v, s)] + [Carry(data[i], s)])
  {
    hide Unpack, Right, Bit, Good;
    UnpackedSeptet(data, text, i, v, s);
    var w := Carry(data[i], s);
    forall b | 0 <= b < 8
      ensures Bit(w, b) == (b < s && Bit(data[i], b + 8 - s))
    {
      RightBits(data[i], 8 - s, b);
    }
    if s == 7 {
      EighthSeptet(data, text + [Unpack(data[i], v, s)], i, w);
    }
  }

  lemma GoodStarts(data: seq<bv8>)
    ensures Good(data, []) && forall i: nat :: Carried(data, i, 0, 1)
  {
    NoBits();
  }

  ghost predicate Good(data: seq<bv8>, text: seq<bv8>) {
    && 7 * |text| <= 8 * |data| && Septets(text)
    && forall k :: 0 <= k < 7 * |text| ==> SeptetBit(text, k) == OctetBit(data, k)
  }

  lemma GoodPart(data: seq<bv8>, text: seq<bv8>, n: nat)
    requires Good(data, text) && n <= |text|
    ensures Good(data, text[..n])
  {
    hide Bit;
    forall k | 0 <= k < 7 * n
      ensures SeptetBit(text[..n], k) == OctetBit(data, k)
    {
      assert SeptetBit(text[..n], k) == SeptetBit(text, k);
    }
  }

  lemma NoBits()
    ensures forall b :: 0 <= b < 8 ==> !Bit(0, b)
  {
  }

  lemma GoodMore(data: seq<bv8>, text: seq<bv8>, x: bv8)
    requires Good(data, text) && 7 * |text| + 7 <= 8 * |data| && Septet(x)
    requires forall b :: 0 <= b < 7 ==> Bit(x, b) == OctetBit(data, 7 * |text| + b)
    ensures Good(data, text + [x])
  {
    hide Bit;
    var more := text + [x];
    forall k | 0 <= k < 7 * |more|
      ensures SeptetBit(more, k) == OctetBit(data, k)
    {
      if k < 7 * |text| {
        assert SeptetBit(more, k) == SeptetBit(text, k);
      } else {
        var b := k - 7 * |text|;
        assert k / 7 == |text| && k % 7 == b;
      }
    }
  }

  lemma SevenBits(x: bv8)
    requires !Bit(x, 7)
    ensures Septet(x)
  {
  }

  /** Where bit b of septet j comes from */
  lemma UnpackPlace(i: nat, j: nat, b: nat)
    requires j == 8 * i / 7 && b < 7
    ensures b < i % 7 ==> i > 0 && (7 * j + b) / 8 == i - 1 && (7 * j + b) % 8 == b + 8 - i % 7
    ensures b >= i % 7 ==> (7 * j + b) / 8 == i && (7 * j + b) % 8 == b - i % 7
    ensures 7 * j + 7 <= 8 * i + 8
  {
    assert 7 * j + b == 8 * i - i % 7 + b;
  }

  lemma UnpackedSeptet(data: seq<bv8>, text: seq<bv8>, i: nat, v: bv8, s: nat)
    requires i < |data| && |text| == 8 * i / 7 && s == i % 7 + 1 && Good(data, text) && Carried(data, i, v, s)
    ensures Good(data, text + [Unpack(data[i], v, s)])
  {
    hide Bit, Unpack, Good;
    var x := Unpack(data[i], v, s);
    UnpackBits(data[i], v, s, 7);
    SevenBits(x);
    UnpackPlace(i, |text|, 0);
    forall b | 0 <= b < 7
      ensures Bit(x, b) == OctetBit(data, 7 * |text| + b)
    {
      UnpackBits(data[i], v, s, b);
      UnpackPlace(i, |text|, b);
    }
    GoodMore(data, text, x);
  }

  /** Where bit b of the eighth septet comes from */
  lemma EighthPlace(i: nat, j: nat, b: nat)
    requires i % 7 == 6 && j == 8 * i / 7 + 1 && b < 7
    ensures 7 * j + 7 == 8 * i + 8 && (7 * j + b) / 8 == i && (7 * j + b) % 8 == 1 + b
  {
    assert i == 7 * (i / 7) + 6;
  }

  lemma EighthSeptet(data: seq<bv8>, text: seq<bv8>, i: nat, v: bv8)
    requires i < |data| && i % 7 == 6 && |text| == 8 * i / 7 + 1 && Good(data, text)
    requires forall b :: 0 <= b < 8 ==> Bit(v, b) == (b < 7 && Bit(data[i], b + 1))
    ensures Good(data, text + [v])
  {
    hide Bit, Good;
    SevenBits(v);
    EighthPlace(i, |text|, 0);
    forall b | 0 <= b < 7
      ensures Bit(v, b) == OctetBit(data, 7 * |text| + b)
    {
      EighthPlace(i, |text|, b);
    }
    GoodMore(data, text, v);
  }

  /** Unpacking what was packed gives the text back, whatever fills the last octet. */
  lemma UnpackedIsText(extra: seq<bv8>, n: nat, data: seq<bv8>, msg: seq<bv8>)
    requires n < |extra| && Septets(extra[..n]) && |msg| == n && |data| == PackedSize(n)
    requires Packed(extra[..n + 1], data)
    requires Good(data, msg)
    ensures msg == extra[..n]
  {
    hide Bit, Septet;
    forall i | 0 <= i < n
      ensures msg[i] == extra[i]
    {
      forall b | 0 <= b < 7
        ensures Bit(msg[i], b) == Bit(extra[i], b)
      {
        var k := 7 * i + b;
        assert k / 7 == i && k % 7 == b;
        assert SeptetBit(msg, k) == OctetBit(data, k);
        assert OctetBit(data, k) == SeptetBit(extra[..n + 1], k);
      }
      assert Septet(extra[..n][i]);
      SameBits(msg[i], extra[i]);
    }
  }
}
