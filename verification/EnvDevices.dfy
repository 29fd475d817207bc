/** The two copies on their NAND devices: what fw_env_open reads and fw_env_close writes, and
    what a power loss inside the write loop leaves. */
module EnvDevices {
  import opened Arithmetic
  import opened Wrappers

  import opened EnvNand
  import opened EnvRedundant

  const HEADER := 5

  function Bytes(img: Image): (r: seq<byte>)
    requires |img.sum| == 4
    ensures |r| == HEADER + |img.data|
  {
    img.sum + [img.flag] + img.data
  }

  function Parse(bytes: seq<byte>): (r: Image)
    requires |bytes| >= HEADER
    ensures |r.sum| == 4 && |r.data| == |bytes| - HEADER && Bytes(r) == bytes
  {
    Image(bytes[..4], bytes[4], bytes[HEADER..])
  }

  lemma ParseOfBytes(img: Image)
    requires |img.sum| == 4
    ensures Parse(Bytes(img)) == img
  {
    var r := Bytes(img);
    assert r[..4] == img.sum && r[HEADER..] == img.data;
  }

  /** The bytes a device holds where the environment stands, if they can be read */
  function RawHeld(mem: Blocks, marks: seq<Mark>, size: nat, devoff: nat, top: nat, envSize: nat): (r: Option<seq<byte>>)
    requires Shaped(mem, marks, size)
    ensures r.Some? ==> |r.value| == HEADER + envSize
  {
    ReadFrom(mem, marks, size, devoff / size, top, devoff % size, HEADER + envSize)
  }

  function Held(mem: Blocks, marks: seq<Mark>, size: nat, devoff: nat, top: nat, envSize: nat): (r: Option<Image>)
    requires Shaped(mem, marks, size)
    ensures r.Some? ==> |r.value.sum| == 4 && |r.value.data| == envSize
  {
    var r := RawHeld(mem, marks, size, devoff, top, envSize);
    if r.None? then None else Some(Parse(r.value))
  }

  /** struct env_image_redundant: the checksum in the first four bytes, the flag byte, the data */
  lemma RawLayout(mem: Blocks, marks: seq<Mark>, size: nat, devoff: nat, top: nat, envSize: nat)
    requires Shaped(mem, marks, size) && RawHeld(mem, marks, size, devoff, top, envSize).Some?
    ensures var raw := RawHeld(mem, marks, size, devoff, top, envSize).value;
      Held(mem, marks, size, devoff, top, envSize) == Some(Image(raw[..4], raw[4], raw[5..]))
  {
    hide RawHeld;
  }

  // ------------------------------------------------------- power loss in the loop

  /** The blocks when power is lost somewhere in the write loop: the block at hand holds
      anything, those before it are written. */
  ghost predicate Interrupted(mem: Blocks, marks: seq<Mark>, size: nat, b: nat, top: nat, data: seq<byte>, left: Blocks)
    requires Shaped(mem, marks, size) && |data| % size == 0
    decreases |mem| - b
  {
    || left == mem
    || (data != [] && b < |mem| && b < top && marks[b] == Bad
         && Interrupted(mem, marks, size, b + 1, top, data, left))
    || (data != [] && b < |mem| && b < top && marks[b] == Good
         && (|| Scribbled(mem, size, b, left)
             || (ModStep(|data|, size); WholeBlocks(|data|, size);
                 Interrupted(mem[b := data[..size]], marks, size, b + 1, top, data[size..], left))))
  }

  /** Block b holds anything, the others what they held. */
  predicate Scribbled(mem: Blocks, size: nat, b: nat, left: Blocks)
    requires b < |mem|
  {
    |left| == |mem| && |left[b]| == size && left == mem[b := left[b]]
  }

  /** It touches what the whole write touches and leaves a device of the same shape. */
  lemma {:induction false} InterruptedStays(mem: Blocks, marks: seq<Mark>, size: nat, b: nat, top: nat, data: seq<byte>, left: Blocks)
    requires Shaped(mem, marks, size) && |data| % size == 0 && Interrupted(mem, marks, size, b, top, data, left)
    ensures Shaped(left, marks, size)
    ensures forall k :: 0 <= k < |mem| && left[k] != mem[k] ==> marks[k] == Good && b <= k < top
    decreases |mem| - b
  {
    if left != mem {
      if marks[b] == Bad {
        InterruptedStays(mem, marks, size, b + 1, top, data, left);
      } else {
        ModStep(|data|, size);
        WholeBlocks(|data|, size);
        var one := mem[b := data[..size]];
        if Interrupted(one, marks, size, b + 1, top, data[size..], left) {
          InterruptedStays(one, marks, size, b + 1, top, data[size..], left);
        }
      }
    }
  }

  /** The whole write is one of its own interruptions. */
  lemma {:induction false} WholeIsInterrupted(mem: Blocks, marks: seq<Mark>, size: nat, b: nat, top: nat, data: seq<byte>)
    requires Shaped(mem, marks, size) && |data| % size == 0
    ensures Interrupted(mem, marks, size, b, top, data, WriteFrom(mem, marks, size, b, top, data).mem)
    decreases |mem| - b
  {
    if data != [] && b < |mem| && b < top && marks[b] != Untested {
      if marks[b] == Bad {
        WholeIsInterrupted(mem, marks, size, b + 1, top, data);
      } else {
        ModStep(|data|, size);
        WholeBlocks(|data|, size);
        WholeIsInterrupted(mem[b := data[..size]], marks, size, b + 1, top, data[size..]);
      }
    }
  }

  /** Whether a stretch can be read is a matter of marks and place alone. */
  lemma {:induction false} ReadableByMarks(mem: Blocks, mem': Blocks, marks: seq<Mark>, size: nat, b: nat, top: nat, seek: nat, count: nat)
    requires Shaped(mem, marks, size) && Shaped(mem', marks, size) && seek < size
    ensures ReadFrom(mem, marks, size, b, top, seek, count).Some? <==> ReadFrom(mem', marks, size, b, top, seek, count).Some?
    decreases |mem| - b
  {
    if count > 0 && b < |mem| && b < top && marks[b] != Untested {
      if marks[b] == Bad {
        ReadableByMarks(mem, mem', marks, size, b + 1, top, seek, count);
      } else {
        ReadableByMarks(mem, mem', marks, size, b + 1, top, 0, count - Min(count, size - seek));
      }
    }
  }

  /** What can be read can be rewritten: the blocks of a read are those of the write. */
  lemma {:induction false} ReadableIsWritable(mem: Blocks, marks: seq<Mark>, size: nat, b: nat, top: nat, seek: nat, count: nat)
    requires Shaped(mem, marks, size) && seek < size && count > 0
    requires ReadFrom(mem, marks, size, b, top, seek, count).Some?
    ensures ReadFrom(mem, marks, size, b, top, 0, RoundUp(seek + count, size)).Some?
    decreases |mem| - b
  {
    if marks[b] == Bad {
      ReadableIsWritable(mem, marks, size, b + 1, top, seek, count);
    } else if seek + count > size {
      ReadableIsWritable(mem, marks, size, b + 1, top, 0, seek + count - size);
    }
  }

  /** flash_write_buf cut short: while it reads the blocks it completes, or in its loop. */
  ghost predicate CutShort(mem: Blocks, marks: seq<Mark>, size: nat, first: nat, top: nat, seek: nat, buf: seq<byte>, left: Blocks)
    requires Shaped(mem, marks, size)
  {
    var total := RoundUp(seek + |buf|, size);
    if total <= |buf| then Interrupted(mem, marks, size, first, top, buf, left)
    else
      var around := ReadFrom(mem, marks, size, first, top, 0, total);
      if around.None? then left == mem
      else Interrupted(mem, marks, size, first, top, Merged(around.value, seek, buf), left)
  }

  lemma CutShortStays(mem: Blocks, marks: seq<Mark>, size: nat, first: nat, top: nat, seek: nat, buf: seq<byte>, left: Blocks)
    requires Shaped(mem, marks, size) && CutShort(mem, marks, size, first, top, seek, buf, left)
    ensures Shaped(left, marks, size)
    ensures forall k :: 0 <= k < |mem| && left[k] != mem[k] ==> marks[k] == Good && first <= k < top
  {
    hide RoundUp, ReadFrom, Interrupted;
    var total := RoundUp(seek + |buf|, size);
    if total <= |buf| {
      InterruptedStays(mem, marks, size, first, top, buf, left);
    } else {
      var around := ReadFrom(mem, marks, size, first, top, 0, total);
      if around.Some? {
        InterruptedStays(mem, marks, size, first, top, Merged(around.value, seek, buf), left);
      }
    }
  }

  lemma TornIsCrash(su: Setup, p: Pair, data: seq<byte>, img: Image)
    requires Torn(su, p, data, img)
    ensures CrashedIn(su, p, data, With(p, Other(Open(su, p).dev), img))
  {
    hide Open, Torn;
  }

  /** With img in the copy being written, and if img is not a torn copy that looks intact, the
      next open finds what it would have found before the close or after it. */
  ghost predicate Foreseen(su: Setup, p: Pair, data: seq<byte>, img: Image) {
    Torn(su, p, data, img)
    ==> Open(su, With(p, Other(Open(su, p).dev), img)) in {Open(su, p), Open(su, Closed(su, p, data))}
  }

  /** A close of data that was cut short left this on the device of the other copy. */
  ghost predicate CutClose(su: Setup, o: Opened, data: seq<byte>, mem: Blocks, marks: seq<Mark>, size: nat, devoff: nat, top: nat, left: Blocks)
    requires Shaped(mem, marks, size) && |su.crc(data)| == 4
  {
    CutShort(mem, marks, size, devoff / size, top, devoff % size, Bytes(NewImage(su, o, data)), left)
  }

  /** Power loss at any point of a close, on the device: the copy being written can still be
      read, and if its checksum tells a torn copy, the next open finds what it would have found
      before the close or after it. */
  lemma CrashOnDevice(su: Setup, p: Pair, o: Opened, data: seq<byte>,
                      mem: Blocks, marks: seq<Mark>, size: nat, devoff: nat, top: nat, left: Blocks)
    requires su.scheme == Incremental && Shaped(mem, marks, size) && |su.crc(data)| == 4 && o == Open(su, p)
    requires Held(mem, marks, size, devoff, top, |data|) == Some(Of(p, Other(o.dev)))
    requires CutClose(su, o, data, mem, marks, size, devoff, top, left)
    ensures Shaped(left, marks, size)
    ensures Held(left, marks, size, devoff, top, |data|).Some?
    ensures Foreseen(su, p, data, Held(left, marks, size, devoff, top, |data|).value)
  {
    hide RoundUp, CutShort, Open, ReadFrom, Torn, Closed, CrashedIn;
    var first, seek := devoff / size, devoff % size;
    CutShortStays(mem, marks, size, first, top, seek, Bytes(NewImage(su, o, data)), left);
    ReadableByMarks(mem, left, marks, size, first, top, seek, HEADER + |data|);
    var img := Held(left, marks, size, devoff, top, |data|).value;
    if Torn(su, p, data, img) {
      TornIsCrash(su, p, data, img);
      CrashIsAtomic(su, p, data, With(p, Other(o.dev), img));
    }
  }

  // ---------------------------------------------------------------- the store

  class Store {
    const su: Setup
    const envSize: nat
    const zero: Flash
    const one: Flash
    /** dev_current and environment.flags, environment.data */
    var dev: Device
    var flag: byte
    var data: seq<byte>

    constructor (su: Setup, envSize: nat, zero: Flash, one: Flash)
      requires su.scheme == Incremental && |su.deflt| <= envSize && zero != one && zero.Valid() && one.Valid()
      requires forall d :: |su.crc(d)| == 4
      ensures Valid() && this.zero == zero && this.one == one && this.su == su && this.envSize == envSize
    {
      this.su, this.envSize, this.zero, this.one := su, envSize, zero, one;
      dev, flag, data := Zero, 0, [];
    }

    ghost predicate Valid()
      reads this, zero, one
    {
      && zero != one && zero.Valid() && one.Valid()
      && su.scheme == Incremental && |su.deflt| <= envSize
      && forall d :: |su.crc(d)| == 4
    }

    function DeviceOf(d: Device): Flash { if d == Zero then zero else one }

    function Copy(d: Device): Option<Image>
      requires DeviceOf(d).Valid()
      reads DeviceOf(d)
    {
      var f := DeviceOf(d);
      Held(f.mem, f.marks, f.size, f.devoff, f.Top(), envSize)
    }

    /** The bytes of a copy as they stand on its device */
    function Raw(d: Device): Option<seq<byte>>
      requires DeviceOf(d).Valid()
      reads DeviceOf(d)
    {
      var f := DeviceOf(d);
      RawHeld(f.mem, f.marks, f.size, f.devoff, f.Top(), envSize)
    }

    lemma CopyIsRaw(d: Device)
      requires DeviceOf(d).Valid() && Copy(d).Some?
      ensures Raw(d).Some?
      ensures var raw := Raw(d).value; Copy(d).value == Image(raw[..4], raw[4], raw[5..])
    {
      hide RawHeld;
      var f := DeviceOf(d);
      RawLayout(f.mem, f.marks, f.size, f.devoff, f.Top(), envSize);
    }

    ghost predicate Readable()
      requires Valid()
      reads this, zero, one
    {
      Copy(Zero).Some? && Copy(One).Some?
    }

    ghost function Copies(): Pair
      requires Valid() && Readable()
      reads this, zero, one
    {
      Pair(Copy(Zero).value, Copy(One).value)
    }

    /** The first four bytes of a copy are the checksum of what stands behind its flag byte. */
    predicate Sums(d: Device)
      requires DeviceOf(d).Valid()
      reads DeviceOf(d)
    {
      Raw(d).Some? && Raw(d).value[..4] == su.crc(Raw(d).value[5..])
    }

    /** flash_read */
    method ReadCopy(d: Device) returns (r: Option<Image>)
      requires Valid()
      ensures r == Copy(d)
    {
      hide ReadFrom;
      var f := DeviceOf(d);
      var bytes := f.Read(f.devoff, HEADER + envSize);
      if bytes.None? {
        return None;
      }
      r := Some(Parse(bytes.value));
    }

    /** fw_env_open */
    method OpenEnv() returns (ok: bool)
      requires Valid()
      modifies this
      ensures Valid() && (ok <==> Readable())
      ensures ok ==> Opened(dev, flag, data) == Open(su, Copies())
      ensures ok ==> |data| == envSize
      ensures ok ==> Raw(dev).Some? && flag == Raw(dev).value[4]
      ensures ok && Sums(dev) ==> data == Raw(dev).value[5..]
      ensures ok && !Sums(Zero) && !Sums(One) ==>
        dev == Zero && su.deflt <= data && data[|su.deflt|..] == Raw(Zero).value[5..][|su.deflt|..]
      ensures ok && (Sums(Zero) || Sums(One)) ==> Sums(dev)
    {
      hide ReadFrom, RawHeld, Held;
      var image0 := ReadCopy(Zero);
      if image0.None? {
        return false;
      }
      var image1 := ReadCopy(One);
      if image1.None? {
        return false;
      }
      var ok0 := image0.value.sum == su.crc(image0.value.data);
      var ok1 := image1.value.sum == su.crc(image1.value.data);
      var environment := image0.value;
      dev := Zero;
      if !ok0 && !ok1 {
        environment := environment.(data := Overlay(su.deflt, environment.data));
      } else if !ok1 {
      } else if !ok0 {
        dev := One;
      } else {
        dev := Choose(su, image0.value.flag, image1.value.flag);
      }
      if dev == One {
        environment := image1.value;
      }
      flag, data := environment.flag, environment.data;
      ok := true;
      CopyIsRaw(Zero);
      CopyIsRaw(One);
    }

    /** fw_env_close, with flash_io and flash_write */
    method CloseEnv() returns (ok: bool)
      requires Valid() && Readable() && |data| == envSize
      modifies this`flag, DeviceOf(Other(dev))
      ensures Valid() && ok && Readable()
      ensures Copies() == With(old(Copies()), Other(dev), Image(su.crc(data), (old(flag) + 1) % 256, data))
      ensures old(dev) == Open(su, old(Copies())).dev && old(flag) == Open(su, old(Copies())).flag
        ==> Copies() == Closed(su, old(Copies()), data)
      ensures Raw(Other(dev)) == Some(su.crc(data) + [flag] + data) && flag == (old(flag) + 1) % 256
    {
      hide ReadFrom, RawHeld, Held;
      flag := (flag + 1) % 256;
      var img := Image(su.crc(data), flag, data);
      var target := DeviceOf(Other(dev));
      ok := WriteCopy(target, img);
      CopyIsRaw(Other(dev));
      ghost var raw := Raw(Other(dev)).value;
      assert raw == raw[..4] + [raw[4]] + raw[5..];
    }

    method WriteCopy(target: Flash, img: Image) returns (ok: bool)
      requires target.Valid() && |img.sum| == 4 && |img.data| == envSize
      requires Held(target.mem, target.marks, target.size, target.devoff, target.Top(), envSize).Some?
      modifies target
      ensures target.Valid() && ok
      ensures Held(target.mem, target.marks, target.size, target.devoff, target.Top(), envSize) == Some(img)
    {
      hide ReadFrom, RoundUp, WriteBuf;
      ghost var mem, marks, size, top := target.mem, target.marks, target.size, target.Top();
      ghost var first, seek := target.devoff / size, target.devoff % size;
      ok := target.Write(target.devoff, Bytes(img));
      ReadableIsWritable(mem, marks, size, first, top, seek, HEADER + envSize);
      WriteSucceedsAndStays(mem, marks, size, first, top, seek, Bytes(img));
      WriteReadsBack(mem, marks, size, first, top, seek, Bytes(img));
      ParseOfBytes(img);
    }
  }

  function Closes(datas: seq<seq<byte>>): seq<Event>
    decreases datas
  {
    if datas == [] then [] else [Finished(datas[0])] + Closes(datas[1..])
  }

  /** A history of opens and closes on two devices, and one more open: the copies are those of the
      history, and the open returns what was closed last, or for ever the same where the counter
      is stale. */
  method Sessions(store: Store, datas: seq<seq<byte>>) returns (ok: bool)
    requires store.Valid() && store.Readable() && forall k :: 0 <= k < |datas| ==> |datas[k]| == store.envSize
    modifies store, store.zero, store.one
    ensures store.Valid() && ok && store.Readable()
    ensures store.Copies() == End(store.su, old(store.Copies()), Closes(datas))
    ensures Opened(store.dev, store.flag, store.data) == Open(store.su, store.Copies())
    ensures Sound(store.su, old(store.Copies())) && datas != [] ==> store.data == datas[|datas| - 1]
    ensures Stuck(store.su, old(store.Copies())) ==> store.data == Open(store.su, old(store.Copies())).data
  {
    hide Open, Closed, Stuck, Sound, Held;
    ghost var su, p := store.su, store.Copies();
    assert datas[0..] == datas;
    for k := 0 to |datas|
      invariant store.Valid() && store.Readable()
      invariant End(su, p, Closes(datas)) == End(su, store.Copies(), Closes(datas[k..]))
    {
      assert datas[k..][0] == datas[k] && datas[k..][1..] == datas[k + 1..];
      assert Closes(datas[k..])[1..] == Closes(datas[k + 1..]);
      ok := store.OpenEnv();
      store.data := datas[k];
      ok := store.CloseEnv();
    }
    ok := store.OpenEnv();
    ClosesHappen(su, p, datas);
    if Sound(su, p) && datas != [] {
      SoundRun(su, p, Closes(datas), {Open(su, p).data});
      LastClosed({Open(su, p).data}, datas);
    }
    if Stuck(su, p) {
      StuckForEver(su, p, Closes(datas));
    }
  }

  lemma {:induction false} ClosesHappen(su: Setup, p: Pair, datas: seq<seq<byte>>)
    ensures Happens(su, p, Closes(datas))
    decreases datas
  {
    hide Open, Closed, CrashedIn;
    if datas != [] {
      assert Closes(datas)[1..] == Closes(datas[1..]);
      ClosesHappen(su, Closed(su, p, datas[0]), datas[1..]);
    }
  }

  lemma {:induction false} LastClosed(found: set<seq<byte>>, datas: seq<seq<byte>>)
    requires datas != []
    ensures Allowed(found, Closes(datas)) == {datas[|datas| - 1]}
    decreases datas
  {
    assert Closes(datas)[1..] == Closes(datas[1..]);
    if |datas| > 1 {
      LastClosed({datas[0]}, datas[1..]);
    }
  }
}
