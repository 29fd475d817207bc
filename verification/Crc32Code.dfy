/** crc32.c as it runs: the table made by loops, eight looks at it for every eight bytes, and
    the checksum in chunks. */
module Crc32Code {
  import opened Crc32
  import Crc32Table

  /** The exponents of the polynomial */
  const TERMS: seq<nat> := [0, 1, 2, 4, 5, 7, 8, 10, 11, 12, 16, 22, 23, 26]

  function TermBit(term: nat): bv32
    requires term <= 31
  {
    1 << (31 - term)
  }

  function PolynomialOf(terms: seq<nat>): bv32
    requires forall i :: 0 <= i < |terms| ==> terms[i] <= 31
    decreases terms
  {
    if terms == [] then 0 else PolynomialOf(terms[..|terms| - 1]) | TermBit(terms[|terms| - 1])
  }

  class Unit {
    const table: array<bv32>
    var tableEmpty: bool

    /** With DYNAMIC_CRC_TABLE the table is made when it is first needed. */
    constructor ()
      ensures Valid() && tableEmpty && fresh(table)
    {
      table := new bv32[256];
      tableEmpty := true;
    }

    /** Without it the table is compiled in. */
    constructor CompiledIn()
      ensures Valid() && !tableEmpty && fresh(table)
      ensures forall n :: 0 <= n < 256 ==> table[n] == Crc32Table.CompiledIn(n)
    {
      hide Eight, Crc32Table.CompiledIn;
      table := new bv32[256];
      tableEmpty := false;
      new;
      forall n | 0 <= n < 256 {
        table[n] := Crc32Table.CompiledIn(n);
      }
      forall b: bv32 | b <= 0xFF
        ensures table[b as int] == Eight(b)
      {
        Crc32Table.CompiledInIs(b);
      }
    }

    ghost predicate Valid()
      reads this, table
    {
      table.Length == 256 && (!tableEmpty ==> forall b: bv32 :: b <= 0xFF ==> table[b as int] == Eight(b))
    }

    /** The loop over the bits of one entry */
    method TableEntry(n: bv32, poly: bv32) returns (c: bv32)
      requires poly == POLYNOMIAL
      ensures c == Eight(n)
    {
      hide Eight, T;
      c := n;
      for k := 0 to 8
        invariant c == Steps(n, k)
      {
        TAsWritten(c);
        c := if c & 1 != 0 then poly ^ (c >> 1) else c >> 1;
      }
      EightSteps(n);
    }

    /** The loop that makes the exclusive-or pattern */
    method MakePolynomial() returns (poly: bv32)
      ensures poly == POLYNOMIAL
    {
      hide PolynomialOf, TermBit;
      poly := 0;
      NoTerms();
      assert TERMS[..0] == [];
      for n := 0 to |TERMS|
        invariant poly == PolynomialOf(TERMS[..n])
      {
        MoreTerms(TERMS[..n + 1]);
        assert TERMS[..n + 1][..n] == TERMS[..n];
        poly := poly | TermBit(TERMS[n]);
      }
      assert TERMS[..|TERMS|] == TERMS;
      PolynomialIs();
    }

    /** make_crc_table */
    method MakeCrcTable()
      requires Valid()
      modifies this, table
      ensures Valid() && !tableEmpty
    {
      hide Eight;
      var poly := MakePolynomial();
      for n := 0 to 256
        invariant forall b: bv32 :: b <= 0xFF && b as int < n ==> table[b as int] == Eight(b)
      {
        table[n] := TableEntry(n as bv32, poly);
        forall b: bv32 | b <= 0xFF && b as int == n
          ensures table[b as int] == Eight(b)
        {
          BackAgain(b);
        }
      }
      tableEmpty := false;
    }

    method Entry(index: bv32) returns (entry: bv32)
      requires Valid() && !tableEmpty && index <= 0xFF
      ensures entry == Eight(index)
    {
      hide Eight;
      entry := table[index as int];
    }

    /** DO1 */
    method Do1(crc: bv32, b: bv8) returns (r: bv32)
      requires Valid() && !tableEmpty
      ensures r == ByTable(crc, b)
    {
      hide Eight, Plus, Valid;
      LowByte(Plus(crc, b as bv32));
      var entry := Entry(Plus(crc, b as bv32) & 0xFF);
      r := Plus(entry, crc >> 8);
    }

    /** The loops of crc32, on the len bytes at buf */
    method Run(crc: bv32, memory: array<bv8>, buf: nat, len: nat) returns (r: bv32)
      requires Valid() && !tableEmpty && buf + len <= memory.Length
      ensures r == Bytes(crc, memory[buf..buf + len])
    {
      hide ByTable, Bytes;
      r := crc;
      var at, left := buf, len;
      NoBytes(crc);
      assert memory[buf..buf] == [];
      while left >= 8
        invariant buf <= at <= buf + len && left == buf + len - at
        invariant r == Bytes(crc, memory[buf..at])
      {
        // DO8
        for i := 0 to 8
          invariant at == buf + len - left + i && left >= 8 && r == Bytes(crc, memory[buf..at])
        {
          MoreBytes(crc, memory, buf, at);
          r := Do1(r, memory[at]);
          at := at + 1;
        }
        left := left - 8;
      }
      while left > 0
        invariant buf <= at <= buf + len && left == buf + len - at
        invariant r == Bytes(crc, memory[buf..at])
      {
        MoreBytes(crc, memory, buf, at);
        r := Do1(r, memory[at]);
        at := at + 1;
        left := left - 1;
      }
    }

    /** crc32 */
    method Crc32(crc: bv32, memory: array<bv8>, buf: nat, len: nat) returns (r: bv32)
      requires Valid() && buf + len <= memory.Length
      modifies this, table
      ensures Valid() && r == Checksum(crc, memory[buf..buf + len])
    {
      hide Feed, Bits, Bytes;
      if tableEmpty {
        MakeCrcTable();
      }
      r := Run(crc ^ 0xFFFFFFFF, memory, buf, len);
      BytesAreBits(crc ^ 0xFFFFFFFF, memory[buf..buf + len]);
      r := r ^ 0xFFFFFFFF;
    }

    /** crc32_no_comp: the bare register */
    method Crc32NoComp(crc: bv32, memory: array<bv8>, buf: nat, len: nat) returns (r: bv32)
      requires Valid() && buf + len <= memory.Length
      modifies this, table
      ensures Valid() && r == Feed(crc, Bits(memory[buf..buf + len]))
    {
      hide Feed, Bits, Bytes;
      if tableEmpty {
        MakeCrcTable();
      }
      r := Run(crc, memory, buf, len);
      BytesAreBits(crc, memory[buf..buf + len]);
    }

    /** crc32_wd, which resets the watchdog after every chunk */
    method Crc32Wd(crc: bv32, memory: array<bv8>, buf: nat, len: nat, chunkSize: nat) returns (r: bv32, resets: nat)
      requires Valid() && buf + len <= memory.Length && (chunkSize > 0 || len == 0)
      modifies this, table
      ensures Valid() && r == Checksum(crc, memory[buf..buf + len])
    {
      hide Checksum;
      r, resets := crc, 0;
      var curr := buf;
      NothingAdded(crc);
      assert memory[buf..buf] == [];
      while curr < buf + len
        invariant Valid() && buf <= curr <= buf + len
        invariant r == Checksum(crc, memory[buf..curr])
      {
        var chunk := buf + len - curr;
        if chunk > chunkSize {
          chunk := chunkSize;
        }
        Chains(crc, memory[buf..curr], memory[curr..curr + chunk]);
        assert memory[buf..curr] + memory[curr..curr + chunk] == memory[buf..curr + chunk];
        r := Crc32(r, memory, curr, chunk);
        curr := curr + chunk;
        resets := resets + 1;
      }
    }
  }

  lemma NoTerms()
    ensures PolynomialOf([]) == 0
  {
  }

  lemma MoreTerms(terms: seq<nat>)
    requires terms != [] && forall i :: 0 <= i < |terms| ==> terms[i] <= 31
    ensures PolynomialOf(terms) == PolynomialOf(terms[..|terms| - 1]) | TermBit(terms[|terms| - 1])
  {
  }

  lemma PolynomialIs()
    ensures PolynomialOf(TERMS) == POLYNOMIAL
  {
    hide PolynomialOf, TermBit;
    NoTerms();
    TermBits();
    assert TERMS[..0] == [];
    Term(0, 0x00000000, 0x80000000);
    Term(1, 0x80000000, 0xC0000000);
    Term(2, 0xC0000000, 0xE0000000);
    Term(3, 0xE0000000, 0xE8000000);
    Term(4, 0xE8000000, 0xEC000000);
    Term(5, 0xEC000000, 0xED000000);
    Term(6, 0xED000000, 0xED800000);
    Term(7, 0xED800000, 0xEDA00000);
    Term(8, 0xEDA00000, 0xEDB00000);
    Term(9, 0xEDB00000, 0xEDB80000);
    Term(10, 0xEDB80000, 0xEDB88000);
    Term(11, 0xEDB88000, 0xEDB88200);
    Term(12, 0xEDB88200, 0xEDB88300);
    Term(13, 0xEDB88300, 0xEDB88320);
    assert TERMS[..14] == TERMS;
  }

  lemma TermBits()
    ensures TermBit(0) == 0x80000000 && TermBit(1) == 0x40000000 && TermBit(2) == 0x20000000 && TermBit(4) == 0x08000000 && TermBit(5) == 0x04000000
    ensures TermBit(7) == 0x01000000 && TermBit(8) == 0x00800000 && TermBit(10) == 0x00200000 && TermBit(11) == 0x00100000 && TermBit(12) == 0x00080000
    ensures TermBit(16) == 0x00008000 && TermBit(22) == 0x00000200 && TermBit(23) == 0x00000100 && TermBit(26) == 0x00000020
  {
  }

  lemma Term(k: nat, before: bv32, sum: bv32)
    requires k < |TERMS| && PolynomialOf(TERMS[..k]) == before && before | TermBit(TERMS[k]) == sum
    ensures PolynomialOf(TERMS[..k + 1]) == sum
  {
    hide PolynomialOf, TermBit;
    MoreTerms(TERMS[..k + 1]);
    assert TERMS[..k + 1][..k] == TERMS[..k];
  }

  lemma TAsWritten(c: bv32)
    ensures T(c) == if c & 1 != 0 then POLYNOMIAL ^ (c >> 1) else c >> 1
  {
    PlusIs(POLYNOMIAL, c >> 1);
    PlusLowBit(c, c);
    hide Plus;
  }

  lemma EightSteps(c: bv32)
    ensures Steps(c, 8) == Eight(c)
  {
    hide T;
    assert Steps(c, 1) == T(c);
    assert Steps(c, 2) == Two(c);
    assert Steps(c, 3) == T(Two(c));
    assert Steps(c, 4) == Four(c);
    assert Steps(c, 5) == T(Four(c));
    assert Steps(c, 6) == Two(Four(c));
    assert Steps(c, 7) == T(Two(Four(c)));
  }

  lemma LowByte(c: bv32)
    ensures c & 0xFF <= 0xFF
  {
  }

  lemma BackAgain(c: bv32)
    ensures (c as int) as bv32 == c
  {
  }

  lemma NoBytes(c: bv32)
    ensures Bytes(c, []) == c
  {
  }

  lemma MoreBytes(c: bv32, memory: array<bv8>, buf: nat, at: nat)
    requires buf <= at < memory.Length
    ensures Bytes(c, memory[buf..at + 1]) == ByTable(Bytes(c, memory[buf..at]), memory[at])
  {
    assert memory[buf..at + 1] == memory[buf..at] + [memory[at]];
    BytesMore(c, memory[buf..at], memory[at]);
  }

  lemma NothingAdded(crc: bv32)
    ensures Checksum(crc, []) == crc
  {
    Undone(crc);
  }
}
