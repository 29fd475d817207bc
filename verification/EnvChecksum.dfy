/** The checksum that tells a torn copy of the environment: CRC-32 of the data, as its four bytes
    stand in struct env_image_redundant. */
module EnvChecksum {
  import opened Arithmetic

  import opened EnvNand
  import opened EnvRedundant
  import Crc32
  import Crc32Residue

  /** A byte as eight bits */
  function Octet(b: byte): bv8 { b as bv8 }

  function Octets(data: seq<byte>): (r: seq<bv8>)
    ensures |r| == |data| && forall i :: 0 <= i < |data| ==> r[i] == Octet(data[i])
  {
    seq(|data|, i requires 0 <= i < |data| => Octet(data[i]))
  }

  /** A little-endian uint32_t */
  function Stored(c: bv32): (r: seq<byte>)
    ensures |r| == 4
  {
    var s := Crc32Residue.LittleEndian(c);
    [s[0] as int, s[1] as int, s[2] as int, s[3] as int]
  }

  /** What fw_env_close stores and fw_env_open compares */
  function CrcOf(data: seq<byte>): (r: seq<byte>)
    ensures |r| == 4
  {
    Stored(Crc32.Checksum(0, Octets(data)))
  }

  lemma OctetInjective(a: byte, b: byte)
    requires Octet(a) == Octet(b)
    ensures a == b
  {
    OctetIs(a);
    OctetIs(b);
  }

  /** It is the same number. */
  lemma OctetIs(b: byte)
    ensures (Octet(b) as int) == b
  {
    var x := OctetOf(b);
    OctetBack(x);
  }

  lemma {:induction false} OctetOf(b: nat) returns (x: bv8)
    requires b < 256
    ensures x as int == b
  {
    if b == 0 {
      x := 0;
    } else {
      var y := OctetOf(b - 1);
      OctetBack(y);
      NextOctet(y);
      x := y + 1;
    }
  }

  lemma OctetBack(y: bv8)
    ensures ((y as int) as bv8) == y && (y == 0xFF <==> y as int == 255)
  {
  }

  lemma NextOctet(y: bv8)
    requires y != 0xFF
    ensures (y + 1) as int == (y as int) + 1
  {
  }

  lemma StoredIs(c: bv32)
    ensures Octets(Stored(c)) == Crc32Residue.LittleEndian(c)
  {
    hide Crc32Residue.LittleEndian;
    var s := Crc32Residue.LittleEndian(c);
    OctetBack(s[0]);
    OctetBack(s[1]);
    OctetBack(s[2]);
    OctetBack(s[3]);
  }

  lemma StoredInjective(c: bv32, d: bv32)
    requires Stored(c) == Stored(d)
    ensures c == d
  {
    StoredIs(c);
    StoredIs(d);
    Crc32Residue.LittleEndianInjective(c, d);
  }

  /** The stored sum is that of CRC-32, in the order in which it closes a stream. */
  lemma StoredCloses(data: seq<byte>)
    ensures Crc32.Checksum(0, Octets(data) + Octets(CrcOf(data))) == Crc32Residue.RESIDUE
  {
    hide Crc32.Checksum, Crc32Residue.LittleEndian, Stored, Octet;
    StoredIs(Crc32.Checksum(0, Octets(data)));
    Crc32Residue.CarriesItsSum(0, Octets(data));
  }

  /** A copy whose data was damaged inside four consecutive bytes is never taken for intact. */
  lemma DamageShows(img: Image, torn: Image, i: nat)
    requires Intact(CrcOf, img) && torn.sum == img.sum
    requires |torn.data| == |img.data| && torn.data != img.data && i <= |img.data|
    requires forall k :: 0 <= k < |img.data| && torn.data[k] != img.data[k] ==> i <= k < i + 4
    ensures !Intact(CrcOf, torn)
  {
    hide Crc32.Checksum, Stored, Octet;
    var x, y := Octets(img.data), Octets(torn.data);
    var k :| 0 <= k < |img.data| && torn.data[k] != img.data[k];
    if x[k] == y[k] { OctetInjective(img.data[k], torn.data[k]); }
    Crc32.FourBytesFound(0, x, y, i);
    if Stored(Crc32.Checksum(0, x)) == Stored(Crc32.Checksum(0, y)) {
      StoredInjective(Crc32.Checksum(0, x), Crc32.Checksum(0, y));
    }
  }
}
