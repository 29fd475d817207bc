/** The table that is compiled in, against the one the loops of make_crc_table would make. */
module Crc32Table {
  import opened Crc32

  /** crc_table, in rows of sixteen */
  const ROW0: seq<bv32> := [
    0x00000000, 0x77073096, 0xEE0E612C, 0x990951BA, 0x076DC419, 0x706AF48F, 0xE963A535, 0x9E6495A3,
    0x0EDB8832, 0x79DCB8A4, 0xE0D5E91E, 0x97D2D988, 0x09B64C2B, 0x7EB17CBD, 0xE7B82D07, 0x90BF1D91
  ]

  const ROW1: seq<bv32> := [
    0x1DB71064, 0x6AB020F2, 0xF3B97148, 0x84BE41DE, 0x1ADAD47D, 0x6DDDE4EB, 0xF4D4B551, 0x83D385C7,
    0x136C9856, 0x646BA8C0, 0xFD62F97A, 0x8A65C9EC, 0x14015C4F, 0x63066CD9, 0xFA0F3D63, 0x8D080DF5
  ]

  const ROW2: seq<bv32> := [
    0x3B6E20C8, 0x4C69105E, 0xD56041E4, 0xA2677172, 0x3C03E4D1, 0x4B04D447, 0xD20D85FD, 0xA50AB56B,
    0x35B5A8FA, 0x42B2986C, 0xDBBBC9D6, 0xACBCF940, 0x32D86CE3, 0x45DF5C75, 0xDCD60DCF, 0xABD13D59
  ]

  const ROW3: seq<bv32> := [
    0x26D930AC, 0x51DE003A, 0xC8D75180, 0xBFD06116, 0x21B4F4B5, 0x56B3C423, 0xCFBA9599, 0xB8BDA50F,
    0x2802B89E, 0x5F058808, 0xC60CD9B2, 0xB10BE924, 0x2F6F7C87, 0x58684C11, 0xC1611DAB, 0xB6662D3D
  ]

  const ROW4: seq<bv32> := [
    0x76DC4190, 0x01DB7106, 0x98D220BC, 0xEFD5102A, 0x71B18589, 0x06B6B51F, 0x9FBFE4A5, 0xE8B8D433,
    0x7807C9A2, 0x0F00F934, 0x9609A88E, 0xE10E9818, 0x7F6A0DBB, 0x086D3D2D, 0x91646C97, 0xE6635C01
  ]

  const ROW5: seq<bv32> := [
    0x6B6B51F4, 0x1C6C6162, 0x856530D8, 0xF262004E, 0x6C0695ED, 0x1B01A57B, 0x8208F4C1, 0xF50FC457,
    0x65B0D9C6, 0x12B7E950, 0x8BBEB8EA, 0xFCB9887C, 0x62DD1DDF, 0x15DA2D49, 0x8CD37CF3, 0xFBD44C65
  ]

  const ROW6: seq<bv32> := [
    0x4DB26158, 0x3AB551CE, 0xA3BC0074, 0xD4BB30E2, 0x4ADFA541, 0x3DD895D7, 0xA4D1C46D, 0xD3D6F4FB,
    0x4369E96A, 0x346ED9FC, 0xAD678846, 0xDA60B8D0, 0x44042D73, 0x33031DE5, 0xAA0A4C5F, 0xDD0D7CC9
  ]

  const ROW7: seq<bv32> := [
    0x5005713C, 0x270241AA, 0xBE0B1010, 0xC90C2086, 0x5768B525, 0x206F85B3, 0xB966D409, 0xCE61E49F,
    0x5EDEF90E, 0x29D9C998, 0xB0D09822, 0xC7D7A8B4, 0x59B33D17, 0x2EB40D81, 0xB7BD5C3B, 0xC0BA6CAD
  ]

  const ROW8: seq<bv32> := [
    0xEDB88320, 0x9ABFB3B6, 0x03B6E20C, 0x74B1D29A, 0xEAD54739, 0x9DD277AF, 0x04DB2615, 0x73DC1683,
    0xE3630B12, 0x94643B84, 0x0D6D6A3E, 0x7A6A5AA8, 0xE40ECF0B, 0x9309FF9D, 0x0A00AE27, 0x7D079EB1
  ]

  const ROW9: seq<bv32> := [
    0xF00F9344, 0x8708A3D2, 0x1E01F268, 0x6906C2FE, 0xF762575D, 0x806567CB, 0x196C3671, 0x6E6B06E7,
    0xFED41B76, 0x89D32BE0, 0x10DA7A5A, 0x67DD4ACC, 0xF9B9DF6F, 0x8EBEEFF9, 0x17B7BE43, 0x60B08ED5
  ]

  const ROW10: seq<bv32> := [
    0xD6D6A3E8, 0xA1D1937E, 0x38D8C2C4, 0x4FDFF252, 0xD1BB67F1, 0xA6BC5767, 0x3FB506DD, 0x48B2364B,
    0xD80D2BDA, 0xAF0A1B4C, 0x36034AF6, 0x41047A60, 0xDF60EFC3, 0xA867DF55, 0x316E8EEF, 0x4669BE79
  ]

  const ROW11: seq<bv32> := [
    0xCB61B38C, 0xBC66831A, 0x256FD2A0, 0x5268E236, 0xCC0C7795, 0xBB0B4703, 0x220216B9, 0x5505262F,
    0xC5BA3BBE, 0xB2BD0B28, 0x2BB45A92, 0x5CB36A04, 0xC2D7FFA7, 0xB5D0CF31, 0x2CD99E8B, 0x5BDEAE1D
  ]

  const ROW12: seq<bv32> := [
    0x9B64C2B0, 0xEC63F226, 0x756AA39C, 0x026D930A, 0x9C0906A9, 0xEB0E363F, 0x72076785, 0x05005713,
    0x95BF4A82, 0xE2B87A14, 0x7BB12BAE, 0x0CB61B38, 0x92D28E9B, 0xE5D5BE0D, 0x7CDCEFB7, 0x0BDBDF21
  ]

  const ROW13: seq<bv32> := [
    0x86D3D2D4, 0xF1D4E242, 0x68DDB3F8, 0x1FDA836E, 0x81BE16CD, 0xF6B9265B, 0x6FB077E1, 0x18B74777,
    0x88085AE6, 0xFF0F6A70, 0x66063BCA, 0x11010B5C, 0x8F659EFF, 0xF862AE69, 0x616BFFD3, 0x166CCF45
  ]

  const ROW14: seq<bv32> := [
    0xA00AE278, 0xD70DD2EE, 0x4E048354, 0x3903B3C2, 0xA7672661, 0xD06016F7, 0x4969474D, 0x3E6E77DB,
    0xAED16A4A, 0xD9D65ADC, 0x40DF0B66, 0x37D83BF0, 0xA9BCAE53, 0xDEBB9EC5, 0x47B2CF7F, 0x30B5FFE9
  ]

  const ROW15: seq<bv32> := [
    0xBDBDF21C, 0xCABAC28A, 0x53B39330, 0x24B4A3A6, 0xBAD03605, 0xCDD70693, 0x54DE5729, 0x23D967BF,
    0xB3667A2E, 0xC4614AB8, 0x5D681B02, 0x2A6F2B94, 0xB40BBE37, 0xC30C8EA1, 0x5A05DF1B, 0x2D02EF8D
  ]

  function Row(k: nat): (r: seq<bv32>)
    requires k < 16
    ensures |r| == 16
  {
    match k
    case 0 => ROW0
    case 1 => ROW1
    case 2 => ROW2
    case 3 => ROW3
    case 4 => ROW4
    case 5 => ROW5
    case 6 => ROW6
    case 7 => ROW7
    case 8 => ROW8
    case 9 => ROW9
    case 10 => ROW10
    case 11 => ROW11
    case 12 => ROW12
    case 13 => ROW13
    case 14 => ROW14
    case 15 => ROW15
  }

  function CompiledIn(n: nat): bv32
    requires n < 256
  {
    Row(n / 16)[n % 16]
  }

  /** Every row is the first one with the head of the row added. */
  predicate Adds(row: seq<bv32>, low: seq<bv32>)
    requires |row| == |low| == 16
  {
    forall j :: 0 <= j < 16 ==> row[j] == Plus(row[0], low[j])
  }

  lemma RowAdds0()
    ensures Adds(ROW0, ROW0)
  {
  }

  lemma RowAdds1()
    ensures Adds(ROW1, ROW0)
  {
  }

  lemma RowAdds2()
    ensures Adds(ROW2, ROW0)
  {
  }

  lemma RowAdds3()
    ensures Adds(ROW3, ROW0)
  {
  }

  lemma RowAdds4()
    ensures Adds(ROW4, ROW0)
  {
  }

  lemma RowAdds5()
    ensures Adds(ROW5, ROW0)
  {
  }

  lemma RowAdds6()
    ensures Adds(ROW6, ROW0)
  {
  }

  lemma RowAdds7()
    ensures Adds(ROW7, ROW0)
  {
  }

  lemma RowAdds8()
    ensures Adds(ROW8, ROW0)
  {
  }

  lemma RowAdds9()
    ensures Adds(ROW9, ROW0)
  {
  }

  lemma RowAdds10()
    ensures Adds(ROW10, ROW0)
  {
  }

  lemma RowAdds11()
    ensures Adds(ROW11, ROW0)
  {
  }

  lemma RowAdds12()
    ensures Adds(ROW12, ROW0)
  {
  }

  lemma RowAdds13()
    ensures Adds(ROW13, ROW0)
  {
  }

  lemma RowAdds14()
    ensures Adds(ROW14, ROW0)
  {
  }

  lemma RowAdds15()
    ensures Adds(ROW15, ROW0)
  {
  }

  lemma RowAdds(k: nat)
    requires k < 16
    ensures Adds(Row(k), Row(0))
  {
    hide Adds;
    match k {
      case 0 => RowAdds0();
      case 1 => RowAdds1();
      case 2 => RowAdds2();
      case 3 => RowAdds3();
      case 4 => RowAdds4();
      case 5 => RowAdds5();
      case 6 => RowAdds6();
      case 7 => RowAdds7();
      case 8 => RowAdds8();
      case 9 => RowAdds9();
      case 10 => RowAdds10();
      case 11 => RowAdds11();
      case 12 => RowAdds12();
      case 13 => RowAdds13();
      case 14 => RowAdds14();
      case 15 => RowAdds15();
    }
  }

  lemma LowValues()
    ensures Eight(0x00) == 0x00000000 && Eight(0x01) == 0x77073096 && Eight(0x02) == 0xEE0E612C && Eight(0x03) == 0x990951BA
    ensures Eight(0x04) == 0x076DC419 && Eight(0x05) == 0x706AF48F && Eight(0x06) == 0xE963A535 && Eight(0x07) == 0x9E6495A3
    ensures Eight(0x08) == 0x0EDB8832 && Eight(0x09) == 0x79DCB8A4 && Eight(0x0A) == 0xE0D5E91E && Eight(0x0B) == 0x97D2D988
    ensures Eight(0x0C) == 0x09B64C2B && Eight(0x0D) == 0x7EB17CBD && Eight(0x0E) == 0xE7B82D07 && Eight(0x0F) == 0x90BF1D91
  {
  }

  lemma HeadValues()
    ensures Eight(0x00) == 0x00000000 && Eight(0x10) == 0x1DB71064 && Eight(0x20) == 0x3B6E20C8 && Eight(0x30) == 0x26D930AC
    ensures Eight(0x40) == 0x76DC4190 && Eight(0x50) == 0x6B6B51F4 && Eight(0x60) == 0x4DB26158 && Eight(0x70) == 0x5005713C
    ensures Eight(0x80) == 0xEDB88320 && Eight(0x90) == 0xF00F9344 && Eight(0xA0) == 0xD6D6A3E8 && Eight(0xB0) == 0xCB61B38C
    ensures Eight(0xC0) == 0x9B64C2B0 && Eight(0xD0) == 0x86D3D2D4 && Eight(0xE0) == 0xA00AE278 && Eight(0xF0) == 0xBDBDF21C
  {
  }

  lemma LowIs(b: bv32)
    requires b <= 15
    ensures Row(0)[b as int] == Eight(b)
  {
    LowValues();
    hide Eight;
  }

  lemma HeadIs(b: bv32)
    requires b <= 15
    ensures Row(b as int)[0] == Eight(b << 4)
  {
    HeadValues();
    hide Eight;
  }

  lemma Nibbles(b: bv32)
    requires b <= 0xFF
    ensures b >> 4 <= 15 && b & 15 <= 15 && Plus((b >> 4) << 4, b & 15) == b
    ensures (b as int) == 16 * ((b >> 4) as int) + ((b & 15) as int)
  {
  }

  lemma RowOf(h: nat, l: nat)
    requires h < 16 && l < 16
    ensures CompiledIn(16 * h + l) == Row(h)[l]
  {
    hide Row;
  }

  /** Every entry is what eight bits of its index make of the register. */
  lemma CompiledInIs(b: bv32)
    requires b <= 0xFF
    ensures CompiledIn(b as int) == Eight(b)
  {
    hide Eight, Plus, Row, CompiledIn;
    var hi, lo := b >> 4, b & 15;
    Nibbles(b);
    LowIs(lo);
    HeadIs(hi);
    RowAdds(hi as int);
    RowOf(hi as int, lo as int);
    EightLinear(hi << 4, lo);
  }
}
