/** flash_read_buf and flash_write_buf on NAND: good blocks are used one after the other,
    bad ones are skipped, and nothing behind the last environment sector is touched. */
module EnvNand {
  import opened Arithmetic
  import opened Wrappers

  /** What MEMGETBADBLOCK reports of a block */
  datatype Mark = Good | Bad | Untested

  type Blocks = seq<seq<byte>>

  /** All blocks have the erase size; every block has a mark. */
  predicate Shaped(mem: Blocks, marks: seq<Mark>, size: nat) {
    size > 0 && |mem| == |marks| && forall b :: 0 <= b < |mem| ==> |mem[b]| == size
  }

  // ------------------------------------------------------- sizes and addresses

  /** n rounded up to a multiple of size, which the source does by masking for powers of two */
  function RoundUp(n: nat, size: nat): (r: nat)
    requires size > 0
    ensures n <= r < n + size && (n > 0 ==> r >= size) && r % size == 0
    decreases n
  {
    if n == 0 then 0
    else if n <= size then
      assert size % size == 0;
      size
    else
      var r := RoundUp(n - size, size);
      ModStep(r, size);
      r + size
  }

  lemma ModStep(r: nat, size: nat)
    requires size > 0
    ensures (r + size) % size == r % size && (r >= size ==> (r - size) % size == r % size)
  {
    var q := r / size;
    assert r + size == size * (q + 1) + r % size;
    Remainder(r + size, size, q + 1, r % size);
    if r >= size {
      assert r - size == size * (q - 1) + r % size;
      Remainder(r - size, size, q - 1, r % size);
    }
  }

  /** A transfer from seek on in the block runs past the end of the range. */
  predicate PastTop(block: nat, top: nat, size: nat, seek: nat, len: nat) {
    block * size + seek + len > top * size
  }

  /** The byte-address test against the top of the range is a test on block numbers. */
  lemma RangeTest(block: nat, top: nat, size: nat, seek: nat, len: nat)
    requires 0 < len && seek + len <= size
    ensures PastTop(block, top, size, seek, len) <==> block >= top
  {
    if block >= top {
      assert block * size >= top * size;
    } else {
      assert (block + 1) * size <= top * size;
      assert (block + 1) * size == block * size + size;
    }
  }

  // ------------------------------------------------------------ what is done

  /** The bytes flash_read_buf collects from block b on, seek bytes into the first good block. */
  function ReadFrom(mem: Blocks, marks: seq<Mark>, size: nat, b: nat, top: nat, seek: nat, count: nat): (r: Option<seq<byte>>)
    requires Shaped(mem, marks, size) && seek < size
    ensures r.Some? ==> |r.value| == count
    decreases |mem| - b
  {
    if count == 0 then Some([])
    else if b >= |mem| || b >= top || marks[b] == Untested then None
    else if marks[b] == Bad then ReadFrom(mem, marks, size, b + 1, top, seek, count)
    else
      var n := Min(count, size - seek);
      match ReadFrom(mem, marks, size, b + 1, top, 0, count - n)
      case None => None
      case Some(rest) => Some(mem[b][seek..seek + n] + rest)
  }

  datatype Stored = Stored(done: bool, mem: Blocks)

  /** The blocks after the write loop of flash_write_buf, and whether it came to its end. */
  function WriteFrom(mem: Blocks, marks: seq<Mark>, size: nat, b: nat, top: nat, data: seq<byte>): (r: Stored)
    requires Shaped(mem, marks, size) && |data| % size == 0
    ensures Shaped(r.mem, marks, size)
    decreases |mem| - b
  {
    if data == [] then Stored(true, mem)
    else if b >= |mem| || b >= top || marks[b] == Untested then Stored(false, mem)
    else if marks[b] == Bad then WriteFrom(mem, marks, size, b + 1, top, data)
    else
      ModStep(|data|, size);
      WholeBlocks(|data|, size);
      WriteFrom(mem[b := data[..size]], marks, size, b + 1, top, data[size..])
  }

  lemma WholeBlocks(n: nat, size: nat)
    requires size > 0 && n > 0 && n % size == 0
    ensures n >= size
  {
  }

  // ----------------------------------------------------------------- lemmas

  /** Only good blocks inside the range are ever written. */
  lemma {:induction false} WriteTouches(mem: Blocks, marks: seq<Mark>, size: nat, b: nat, top: nat, data: seq<byte>, k: nat)
    requires Shaped(mem, marks, size) && |data| % size == 0 && k < |mem|
    requires marks[k] != Good || k < b || k >= top
    ensures WriteFrom(mem, marks, size, b, top, data).mem[k] == mem[k]
    decreases |mem| - b
  {
    if data != [] && b < |mem| && b < top && marks[b] != Untested {
      if marks[b] == Bad {
        WriteTouches(mem, marks, size, b + 1, top, data, k);
      } else {
        ModStep(|data|, size);
        WholeBlocks(|data|, size);
        WriteTouches(mem[b := data[..size]], marks, size, b + 1, top, data[size..], k);
      }
    }
  }

  /** Reading depends only on the blocks from b on. */
  lemma {:induction false} ReadSame(mem: Blocks, mem': Blocks, marks: seq<Mark>, size: nat, b: nat, top: nat, seek: nat, count: nat)
    requires Shaped(mem, marks, size) && Shaped(mem', marks, size) && seek < size
    requires forall k :: b <= k < |mem| ==> mem[k] == mem'[k]
    ensures ReadFrom(mem, marks, size, b, top, seek, count) == ReadFrom(mem', marks, size, b, top, seek, count)
    decreases |mem| - b
  {
    if count > 0 && b < |mem| && b < top && marks[b] != Untested {
      if marks[b] == Bad {
        ReadSame(mem, mem', marks, size, b + 1, top, seek, count);
      } else {
        ReadSame(mem, mem', marks, size, b + 1, top, 0, count - Min(count, size - seek));
      }
    }
  }

  /** After a whole write, any stretch of what was written reads back. */
  lemma {:induction false} WriteRead(mem: Blocks, marks: seq<Mark>, size: nat, b: nat, top: nat, data: seq<byte>, seek: nat, count: nat)
    requires Shaped(mem, marks, size) && |data| % size == 0 && seek < size && (count > 0 ==> seek + count <= |data|)
    requires WriteFrom(mem, marks, size, b, top, data).done
    ensures var mem' := WriteFrom(mem, marks, size, b, top, data).mem;
      ReadFrom(mem', marks, size, b, top, seek, count) == if count == 0 then Some([]) else Some(data[seek..seek + count])
    decreases |mem| - b
  {
    if count > 0 {
      if marks[b] == Bad {
        WriteRead(mem, marks, size, b + 1, top, data, seek, count);
      } else {
        ModStep(|data|, size);
        WholeBlocks(|data|, size);
        var one := mem[b := data[..size]];
        var n := Min(count, size - seek);
        var w := WriteFrom(one, marks, size, b + 1, top, data[size..]);
        assert WriteFrom(mem, marks, size, b, top, data) == w;
        WriteRead(one, marks, size, b + 1, top, data[size..], 0, count - n);
        WriteTouches(one, marks, size, b + 1, top, data[size..], b);
        SliceSplit(data, size, seek, count);
      }
    }
  }

  lemma SliceSplit(data: seq<byte>, size: nat, seek: nat, count: nat)
    requires 0 < count && seek < size <= |data| && seek + count <= |data|
    ensures var n := Min(count, size - seek);
      data[seek..seek + count] == data[..size][seek..seek + n] + data[size..][..count - n]
  {
  }

  /** A write comes to its end exactly when a read of as much from the same place does. */
  lemma {:induction false} WriteEnds(mem: Blocks, marks: seq<Mark>, size: nat, b: nat, top: nat, data: seq<byte>)
    requires Shaped(mem, marks, size) && |data| % size == 0
    ensures WriteFrom(mem, marks, size, b, top, data).done
       <==> ReadFrom(mem, marks, size, b, top, 0, |data|).Some?
    decreases |mem| - b
  {
    if data != [] && b < |mem| && b < top && marks[b] != Untested {
      if marks[b] == Bad {
        WriteEnds(mem, marks, size, b + 1, top, data);
      } else {
        ModStep(|data|, size);
        WholeBlocks(|data|, size);
        var one := mem[b := data[..size]];
        WriteEnds(one, marks, size, b + 1, top, data[size..]);
        ReadSame(mem, one, marks, size, b + 1, top, 0, |data| - size);
      }
    }
  }

  /** The block data of flash_write_buf: buf, with what stands around it in its blocks. */
  function Merged(around: seq<byte>, seek: nat, buf: seq<byte>): (r: seq<byte>)
    requires seek + |buf| <= |around|
    ensures |r| == |around|
  {
    around[..seek] + buf + around[seek + |buf|..]
  }

  /** flash_write_buf at seek bytes into block first */
  function WriteBuf(mem: Blocks, marks: seq<Mark>, size: nat, first: nat, top: nat, seek: nat, buf: seq<byte>): (r: Stored)
    requires Shaped(mem, marks, size)
    ensures Shaped(r.mem, marks, size)
  {
    var total := RoundUp(seek + |buf|, size);
    if total > |buf| then
      match ReadFrom(mem, marks, size, first, top, 0, total)
      case None => Stored(false, mem)
      case Some(around) => WriteFrom(mem, marks, size, first, top, Merged(around, seek, buf))
    else WriteFrom(mem, marks, size, first, top, buf)
  }

  /** A write that succeeds is read back by a read of the same range, for every map of bad blocks,
      offset and length. */
  lemma WriteReadsBack(mem: Blocks, marks: seq<Mark>, size: nat, first: nat, top: nat, seek: nat, buf: seq<byte>)
    requires Shaped(mem, marks, size) && seek < size && WriteBuf(mem, marks, size, first, top, seek, buf).done
    ensures ReadFrom(WriteBuf(mem, marks, size, first, top, seek, buf).mem, marks, size, first, top, seek, |buf|) == Some(buf)
  {
    hide RoundUp;
    var total := RoundUp(seek + |buf|, size);
    if total > |buf| {
      var around := ReadFrom(mem, marks, size, first, top, 0, total).value;
      WriteRead(mem, marks, size, first, top, Merged(around, seek, buf), seek, |buf|);
      assert Merged(around, seek, buf)[seek..seek + |buf|] == buf;
    } else {
      WriteRead(mem, marks, size, first, top, buf, 0, |buf|);
      assert buf[0..|buf|] == buf;
    }
  }

  /** The other bytes of the blocks it rewrites are what they were. */
  lemma WriteKeepsAround(mem: Blocks, marks: seq<Mark>, size: nat, first: nat, top: nat, seek: nat, buf: seq<byte>)
    requires Shaped(mem, marks, size) && WriteBuf(mem, marks, size, first, top, seek, buf).done
    ensures var total := RoundUp(seek + |buf|, size);
      var was := ReadFrom(mem, marks, size, first, top, 0, total);
      was.Some? && ReadFrom(WriteBuf(mem, marks, size, first, top, seek, buf).mem, marks, size, first, top, 0, total)
        == Some(Merged(was.value, seek, buf))
  {
    hide RoundUp;
    var total := RoundUp(seek + |buf|, size);
    if total > |buf| {
      var around := ReadFrom(mem, marks, size, first, top, 0, total).value;
      WriteRead(mem, marks, size, first, top, Merged(around, seek, buf), 0, total);
      assert Merged(around, seek, buf)[0..total] == Merged(around, seek, buf);
    } else {
      WriteEnds(mem, marks, size, first, top, buf);
      WriteRead(mem, marks, size, first, top, buf, 0, total);
      var was := ReadFrom(mem, marks, size, first, top, 0, total).value;
      assert buf[0..total] == buf && was[..0] + buf + was[total..] == buf;
    }
  }

  /** It succeeds exactly when the range has enough readable good blocks, and whether it does or
      not, only good blocks from the first one up to the top of the range change. */
  lemma WriteSucceedsAndStays(mem: Blocks, marks: seq<Mark>, size: nat, first: nat, top: nat, seek: nat, buf: seq<byte>)
    requires Shaped(mem, marks, size)
    ensures var r := WriteBuf(mem, marks, size, first, top, seek, buf);
      && (r.done <==> ReadFrom(mem, marks, size, first, top, 0, RoundUp(seek + |buf|, size)).Some?)
      && forall k :: 0 <= k < |mem| && r.mem[k] != mem[k] ==> marks[k] == Good && first <= k < top
  {
    hide RoundUp;
    var total := RoundUp(seek + |buf|, size);
    var was := ReadFrom(mem, marks, size, first, top, 0, total);
    if total <= |buf| || was.Some? {
      var data := if total > |buf| then Merged(was.value, seek, buf) else buf;
      WriteEnds(mem, marks, size, first, top, data);
      forall k | 0 <= k < |mem| && (marks[k] != Good || k < first || k >= top)
        ensures WriteFrom(mem, marks, size, first, top, data).mem[k] == mem[k]
      {
        WriteTouches(mem, marks, size, first, top, data, k);
      }
    }
  }

  // ------------------------------------------------- which blocks hold the data

  /** The good blocks from b on: up to the top of the range, the end of the device or a block whose
      mark cannot be read */
  function GoodBlocks(marks: seq<Mark>, b: nat, top: nat): (g: seq<nat>)
    ensures forall i :: 0 <= i < |g| ==> b <= g[i] < |marks|
    decreases |marks| - b
  {
    if b >= |marks| || b >= top || marks[b] == Untested then []
    else if marks[b] == Bad then GoodBlocks(marks, b + 1, top)
    else [b] + GoodBlocks(marks, b + 1, top)
  }

  predicate Ascends(g: seq<nat>) { forall i, j :: 0 <= i < j < |g| ==> g[i] < g[j] }

  lemma {:induction false} Ascending(marks: seq<Mark>, b: nat, top: nat)
    ensures Ascends(GoodBlocks(marks, b, top))
    decreases |marks| - b
  {
    if b < |marks| && b < top && marks[b] != Untested { Ascending(marks, b + 1, top); }
  }

  lemma OneMark(marks: seq<Mark>, b: nat, k: nat)
    requires b < k <= |marks|
    ensures Untested !in marks[b..k] <==> marks[b] != Untested && Untested !in marks[b + 1..k]
  {
    assert marks[b..k] == [marks[b]] + marks[b + 1..k];
  }

  /** They are all good blocks there, in ascending order. */
  lemma {:induction false} GoodBlocksAre(marks: seq<Mark>, b: nat, top: nat, k: nat)
    ensures var g := GoodBlocks(marks, b, top);
      && Ascends(g)
      && (k in g <==> b <= k < top && k < |marks| && marks[k] == Good && Untested !in marks[b..k])
    decreases |marks| - b
  {
    Ascending(marks, b, top);
    if b < k < |marks| { OneMark(marks, b, k); }
    if b < |marks| && b < top && marks[b] != Untested { GoodBlocksAre(marks, b + 1, top, k); }
  }

  /** The bytes of some blocks, one block after the other */
  function Data(mem: Blocks, g: seq<nat>): seq<byte>
    requires forall i :: 0 <= i < |g| ==> g[i] < |mem|
  {
    if g == [] then [] else mem[g[0]] + Data(mem, g[1..])
  }

  lemma DataFirst(mem: Blocks, b: nat, g: seq<nat>)
    requires b < |mem| && forall i :: 0 <= i < |g| ==> g[i] < |mem|
    ensures forall i :: 0 <= i < |[b] + g| ==> ([b] + g)[i] < |mem|
    ensures Data(mem, [b] + g) == mem[b] + Data(mem, g)
  {
    assert ([b] + g)[1..] == g;
  }

  /** A read brings its bytes from the good blocks laid end to end, or fails where they do not reach. */
  lemma {:induction false} ReadIsData(mem: Blocks, marks: seq<Mark>, size: nat, b: nat, top: nat, seek: nat, count: nat)
    requires Shaped(mem, marks, size) && seek < size
    ensures var all := Data(mem, GoodBlocks(marks, b, top));
      ReadFrom(mem, marks, size, b, top, seek, count)
        == if count == 0 then Some([]) else if seek + count <= |all| then Some(all[seek..seek + count]) else None
    decreases |mem| - b
  {
    hide Data;
    if count == 0 {
    } else if b >= |mem| || b >= top || marks[b] == Untested {
      NoData(mem);
    } else if marks[b] == Bad {
      ReadIsData(mem, marks, size, b + 1, top, seek, count);
    } else {
      var rest := GoodBlocks(marks, b + 1, top);
      ReadIsData(mem, marks, size, b + 1, top, 0, count - Min(count, size - seek));
      DataFirst(mem, b, rest);
      hide GoodBlocks;
      SliceJoin(mem[b], Data(mem, rest), seek, count);
    }
  }

  lemma NoData(mem: Blocks)
    ensures Data(mem, []) == []
  {
  }

  lemma SliceJoin(first: seq<byte>, rest: seq<byte>, seek: nat, count: nat)
    requires 0 < count && seek < |first|
    ensures var n := Min(count, |first| - seek);
      && (seek + count <= |first + rest| <==> count - n <= |rest|)
      && (seek + count <= |first + rest| ==> (first + rest)[seek..seek + count] == first[seek..seek + n] + rest[..count - n])
      && (count == n ==> first[seek..seek + n] + [] == (first + rest)[seek..seek + count])
  {
  }

  /** A write that comes to its end has filled the first n good blocks with its data, in order, and
      changed no other block. */
  lemma {:induction false} WriteFills(mem: Blocks, marks: seq<Mark>, size: nat, b: nat, top: nat, data: seq<byte>) returns (n: nat)
    requires Shaped(mem, marks, size) && |data| % size == 0 && WriteFrom(mem, marks, size, b, top, data).done
    ensures var r, g := WriteFrom(mem, marks, size, b, top, data), GoodBlocks(marks, b, top);
      && n <= |g| && |r.mem| == |mem| && Data(r.mem, g[..n]) == data
      && forall k :: 0 <= k < |mem| && k !in g[..n] ==> r.mem[k] == mem[k]
    decreases |mem| - b
  {
    hide Data;
    n := 0;
    NoData(mem);
    if data != [] {
      if marks[b] == Bad {
        n := WriteFills(mem, marks, size, b + 1, top, data);
      } else {
        ModStep(|data|, size);
        WholeBlocks(|data|, size);
        var one := mem[b := data[..size]];
        n := WriteFills(one, marks, size, b + 1, top, data[size..]);
        var r, rest := WriteFrom(mem, marks, size, b, top, data), GoodBlocks(marks, b + 1, top);
        WriteTouches(one, marks, size, b + 1, top, data[size..], b);
        assert ([b] + rest)[..n + 1] == [b] + rest[..n];
        DataFirst(r.mem, b, rest[..n]);
        n := n + 1;
        hide WriteFrom;
        forall k | 0 <= k < |mem| && k !in [b] + rest[..n - 1]
          ensures r.mem[k] == mem[k]
        {
          assert b in [b] + rest[..n - 1];
          assert k !in rest[..n - 1];
        }
      }
    }
  }

  lemma {:induction false} DataJoin(mem: Blocks, g: seq<nat>, h: seq<nat>)
    requires (forall i :: 0 <= i < |g| ==> g[i] < |mem|) && forall i :: 0 <= i < |h| ==> h[i] < |mem|
    ensures forall i :: 0 <= i < |g + h| ==> (g + h)[i] < |mem|
    ensures Data(mem, g + h) == Data(mem, g) + Data(mem, h)
  {
    if g == [] {
      assert g + h == h;
    } else {
      assert (g + h)[1..] == g[1..] + h;
      DataJoin(mem, g[1..], h);
      assert mem[g[0]] + (Data(mem, g[1..]) + Data(mem, h)) == mem[g[0]] + Data(mem, g[1..]) + Data(mem, h);
    }
  }

  lemma {:induction false} DataAlike(mem: Blocks, mem': Blocks, g: seq<nat>, size: nat)
    requires |mem| == |mem'| && (forall i :: 0 <= i < |g| ==> g[i] < |mem|) && size > 0
    requires forall k :: 0 <= k < |mem| ==> |mem[k]| == |mem'[k]| == size
    ensures |Data(mem, g)| == |Data(mem', g)| && |Data(mem, g)| % size == 0
    ensures (forall i :: 0 <= i < |g| ==> mem'[g[i]] == mem[g[i]]) ==> Data(mem', g) == Data(mem, g)
  {
    if g != [] {
      DataAlike(mem, mem', g[1..], size);
      ModStep(|Data(mem, g[1..])|, size);
    }
  }

  lemma {:induction false} Reaches(n: nat, all: nat, size: nat)
    requires size > 0 && all % size == 0
    ensures RoundUp(n, size) <= all <==> n <= all
    decreases n
  {
    if n > size {
      if all >= size {
        ModStep(all, size);
        Reaches(n - size, all - size, size);
      }
    } else if n > 0 && all > 0 {
      WholeBlocks(all, size);
    }
  }

  /** The good blocks laid end to end are the storage: a write comes to its end exactly where it
      reaches, and then just the bytes in question have changed there, and nothing beside it. */
  lemma WriteIsData(mem: Blocks, marks: seq<Mark>, size: nat, first: nat, top: nat, seek: nat, buf: seq<byte>)
    requires Shaped(mem, marks, size) && seek < size
    ensures var g, r := GoodBlocks(marks, first, top), WriteBuf(mem, marks, size, first, top, seek, buf);
      && |r.mem| == |mem|
      && (r.done <==> seek + |buf| <= |Data(mem, g)|)
      && (r.done ==> Data(r.mem, g) == Merged(Data(mem, g), seek, buf))
  {
    hide RoundUp, Data, GoodBlocks, WriteFrom, ReadFrom, WriteBuf, Merged;
    var g, r, total := GoodBlocks(marks, first, top), WriteBuf(mem, marks, size, first, top, seek, buf), RoundUp(seek + |buf|, size);
    Ascending(marks, first, top);
    DataAlike(mem, mem, g, size);
    Reaches(seek + |buf|, |Data(mem, g)|, size);
    ReadIsData(mem, marks, size, first, top, 0, total);
    WriteSucceedsAndStays(mem, marks, size, first, top, seek, buf);
    if r.done {
      var data := WholeData(mem, marks, size, first, top, seek, buf);
      var n := WriteFills(mem, marks, size, first, top, data);
      Filled(mem, r.mem, marks, size, g, n, data);
      MergedInFront(Data(mem, g), total, seek, buf, data);
    }
  }

  /** The blocks a successful write fills: those it read out, with buf over them, or buf alone */
  lemma WholeData(mem: Blocks, marks: seq<Mark>, size: nat, first: nat, top: nat, seek: nat, buf: seq<byte>) returns (data: seq<byte>)
    requires Shaped(mem, marks, size) && seek < size && WriteBuf(mem, marks, size, first, top, seek, buf).done
    requires |Data(mem, GoodBlocks(marks, first, top))| >= RoundUp(seek + |buf|, size)
    ensures |data| == RoundUp(seek + |buf|, size) && |data| % size == 0
    ensures WriteBuf(mem, marks, size, first, top, seek, buf) == WriteFrom(mem, marks, size, first, top, data)
    ensures data == Merged(Data(mem, GoodBlocks(marks, first, top))[..|data|], seek, buf)
  {
    hide RoundUp, Data, GoodBlocks, WriteFrom, ReadFrom;
    var all, total := Data(mem, GoodBlocks(marks, first, top)), RoundUp(seek + |buf|, size);
    ReadIsData(mem, marks, size, first, top, 0, total);
    if total > 0 { assert all[0..total] == all[..total]; }
    data := Merged(all[..total], seek, buf);
    if total <= |buf| { assert data == buf; }
  }

  lemma MergedInFront(all: seq<byte>, total: nat, seek: nat, buf: seq<byte>, data: seq<byte>)
    requires seek + |buf| <= total <= |all| && |data| == total && data == Merged(all[..total], seek, buf)
    ensures data + all[total..] == Merged(all, seek, buf)
  {
  }

  lemma Filled(mem: Blocks, mem': Blocks, marks: seq<Mark>, size: nat, g: seq<nat>, n: nat, data: seq<byte>)
    requires Shaped(mem, marks, size) && Shaped(mem', marks, size) && n <= |g| && (forall i :: 0 <= i < |g| ==> g[i] < |mem|)
    requires Ascends(g) && Data(mem', g[..n]) == data
    requires forall k :: 0 <= k < |mem| && k !in g[..n] ==> mem'[k] == mem[k]
    ensures |data| <= |Data(mem, g)| && Data(mem', g) == data + Data(mem, g)[|data|..]
  {
    hide Data, Ascends;
    var h, rest := g[..n], g[n..];
    assert g == h + rest;
    forall i | 0 <= i < |rest|
      ensures mem'[rest[i]] == mem[rest[i]]
    {
      NotBefore(g, n, n + i);
    }
    DataJoin(mem, h, rest);
    DataJoin(mem', h, rest);
    DataAlike(mem, mem', h, size);
    DataAlike(mem, mem', rest, size);
  }

  lemma NotBefore(g: seq<nat>, n: nat, i: nat)
    requires Ascends(g) && n <= i < |g|
    ensures g[i] !in g[..n]
  {
  }

  /** What was read before, with what a read still brings */
  function Joined(buf: seq<byte>, rest: Option<seq<byte>>): Option<seq<byte>> {
    if rest.Some? then Some(buf + rest.value) else None
  }

  lemma JoinedNothing(rest: Option<seq<byte>>)
    ensures Joined([], rest) == rest
  {
    assert rest.Some? ==> [] + rest.value == rest.value;
  }

  /** One turn of the loop of flash_read_buf */
  lemma ReadTurn(mem: Blocks, marks: seq<Mark>, size: nat, b: nat, top: nat, seek: nat, count: nat, buf: seq<byte>)
    requires Shaped(mem, marks, size) && seek < size && count > 0
    ensures b >= |mem| || b >= top || marks[b] == Untested ==> ReadFrom(mem, marks, size, b, top, seek, count) == None
    ensures b < |mem| && b < top && marks[b] == Bad
      ==> ReadFrom(mem, marks, size, b, top, seek, count) == ReadFrom(mem, marks, size, b + 1, top, seek, count)
    ensures b < |mem| && b < top && marks[b] == Good
      ==> (Joined(buf, ReadFrom(mem, marks, size, b, top, seek, count))
           == Joined(buf + mem[b][seek..seek + Min(count, size - seek)], ReadFrom(mem, marks, size, b + 1, top, 0, count - Min(count, size - seek))))
  {
    if b < |mem| && b < top && marks[b] == Good {
      var n := Min(count, size - seek);
      var rest := ReadFrom(mem, marks, size, b + 1, top, 0, count - n);
      if rest.Some? {
        assert buf + mem[b][seek..seek + n] + rest.value == buf + (mem[b][seek..seek + n] + rest.value);
      }
    }
  }

  lemma ReadNothing(mem: Blocks, marks: seq<Mark>, size: nat, b: nat, top: nat, seek: nat, buf: seq<byte>)
    requires Shaped(mem, marks, size) && seek < size
    ensures Joined(buf, ReadFrom(mem, marks, size, b, top, seek, 0)) == Some(buf)
  {
    assert buf + [] == buf;
  }

  // ------------------------------------------------------------ the functions

  class Flash {
    const size: nat
    const marks: seq<Mark>
    const devoff: nat
    const sectors: nat
    var mem: Blocks

    constructor (size: nat, marks: seq<Mark>, devoff: nat, sectors: nat, mem: Blocks)
      requires Shaped(mem, marks, size)
      ensures this.size == size && this.marks == marks && this.devoff == devoff && this.sectors == sectors && this.mem == mem
    {
      this.size, this.marks, this.devoff, this.sectors, this.mem := size, marks, devoff, sectors, mem;
    }

    predicate Valid()
      reads this
    {
      Shaped(mem, marks, size)
    }

    /** top_of_range, counted in blocks */
    function Top(): nat
      requires size > 0
    {
      devoff / size + sectors
    }

    /** flash_bad_block; a block the device does not have cannot be tested */
    function BlockMark(b: nat): Mark {
      if b < |marks| then marks[b] else Untested
    }

    /** flash_read_buf */
    method Read(offset: nat, count: nat) returns (r: Option<seq<byte>>)
      requires Valid()
      ensures r == ReadFrom(mem, marks, size, offset / size, Top(), offset % size, count)
      ensures var all := Data(mem, GoodBlocks(marks, offset / size, devoff / size + sectors));
        r == if count == 0 then Some([])
             else if offset % size + count <= |all| then Some(all[offset % size..offset % size + count]) else None
    {
      hide ReadFrom, PastTop, Data, GoodBlocks;
      ReadIsData(mem, marks, size, offset / size, Top(), offset % size, count);
      var b: nat := offset / size;
      var seek: nat := offset % size;
      ghost var top := Top();
      var processed: nat := 0;
      var readlen := Min(count, size - seek);
      var buf: seq<byte> := [];
      ghost var all := ReadFrom(mem, marks, size, b, top, seek, count);
      JoinedNothing(all);
      while processed < count
        invariant processed == |buf| <= count && seek < size && readlen == Min(count - processed, size - seek)
        invariant all == Joined(buf, ReadFrom(mem, marks, size, b, top, seek, count - processed))
        decreases |mem| - b
      {
        ReadTurn(mem, marks, size, b, top, seek, count - processed, buf);
        RangeTest(b, top, size, seek, readlen);
        var rc := BlockMark(b);
        if rc == Untested {
          return None;
        }
        if PastTop(b, Top(), size, seek, readlen) {
          return None;
        }
        if rc == Bad {
          b := b + 1;
          continue;
        }
        buf := buf + mem[b][seek..seek + readlen];
        processed := processed + readlen;
        readlen := Min(size, count - processed);
        seek := 0;
        b := b + 1;
      }
      ReadNothing(mem, marks, size, b, top, seek, buf);
      r := Some(buf);
    }

    /** What flash_write_buf has to write: whole blocks, read out first where buf does not fill them. */
    method BlockData(offset: nat, buf: seq<byte>, total: nat) returns (data: Option<seq<byte>>)
      requires Valid() && total == RoundUp(offset % size + |buf|, size)
      ensures var was := ReadFrom(mem, marks, size, offset / size, Top(), 0, total);
        data == if total <= |buf| then Some(buf)
                else if was.Some? then Some(Merged(was.value, offset % size, buf)) else None
      ensures data.Some? ==> |data.value| == total
    {
      hide RoundUp, ReadFrom;
      if total <= |buf| {
        return Some(buf);
      }
      var seek: nat := offset % size;
      var start: nat := offset - seek;
      AlignedBlock(offset / size, size);
      assert start == offset / size * size;
      var around := Read(start, total);
      if around.None? {
        return None;
      }
      data := Some(around.value[..seek] + buf + around.value[seek + |buf|..]);
    }

    /** flash_write_buf */
    method Write(offset: nat, buf: seq<byte>) returns (ok: bool)
      requires Valid()
      modifies this
      ensures Valid() && Stored(ok, mem) == WriteBuf(old(mem), marks, size, offset / size, Top(), offset % size, buf)
      ensures var g := GoodBlocks(marks, offset / size, devoff / size + sectors);
        && (ok <==> offset % size + |buf| <= |Data(old(mem), g)|)
        && (ok ==> Data(mem, g) == Merged(Data(old(mem), g), offset % size, buf))
    {
      hide RoundUp, ReadFrom, WriteFrom, Data, GoodBlocks;
      WriteIsData(mem, marks, size, offset / size, Top(), offset % size, buf);
      var b: nat := offset / size;
      var total := RoundUp(offset % size + |buf|, size);
      var d := BlockData(offset, buf, total);
      if d.None? {
        return false;
      }
      ok := WriteBlocks(b, d.value);
    }

    /** The loop of flash_write_buf */
    method WriteBlocks(first: nat, data: seq<byte>) returns (ok: bool)
      requires Valid() && |data| % size == 0
      modifies this
      ensures Valid() && Stored(ok, mem) == WriteFrom(old(mem), marks, size, first, Top(), data)
    {
      var b := first;
      ghost var top := Top();
      var processed: nat := 0;
      ghost var end := WriteFrom(mem, marks, size, b, top, data);
      assert data[0..] == data;
      while processed < |data|
        invariant Valid() && processed <= |data| && |data[processed..]| % size == 0
        invariant WriteFrom(mem, marks, size, b, top, data[processed..]) == end
        decreases |mem| - b
      {
        ghost var rest := data[processed..];
        var rc := BlockMark(b);
        if rc == Untested {
          return false;
        }
        RangeTest(b, Top(), size, 0, size);
        if PastTop(b, Top(), size, 0, size) {
          return false;
        }
        if rc == Bad {
          b := b + 1;
          continue;
        }
        ModStep(|rest|, size);
        WholeBlocks(|rest|, size);
        assert rest[..size] == data[processed..processed + size];
        assert rest[size..] == data[processed + size..];
        // erase, then program the whole block
        mem := mem[b := data[processed..processed + size]];
        processed := processed + size;
        b := b + 1;
      }
      ok := true;
    }
  }

  lemma AlignedBlock(b: nat, size: nat)
    requires size > 0
    ensures b * size / size == b && b * size % size == 0
  {
    Remainder(b * size, size, b, 0);
    var q := b * size / size;
    if q < b { Gap(size, q, b); }
    if b < q { Gap(size, b, q); }
  }
}
