/** Two copies of the environment: how fw_env_open picks one, how fw_env_close replaces the
    other, and what a power loss in between can leave. */
module EnvRedundant {
  import opened Arithmetic

  import opened EnvNand

  /** struct env_image_redundant: the stored checksum, the flag byte, the data. */
  datatype Image = Image(sum: seq<byte>, flag: byte, data: seq<byte>)

  /** The four checksum bytes of some data */
  type Checksum = seq<byte> -> seq<byte>

  predicate Intact(crc: Checksum, img: Image) { img.sum == crc(img.data) }

  /** FLAG_INCREMENTAL on two NAND devices, FLAG_BOOLEAN on two NOR devices */
  datatype Scheme = Incremental | Boolean

  /** What does not change: the checksum, the flag scheme, whether char is signed on the
      machine, and the compiled-in default environment. */
  datatype Setup = Setup(crc: Checksum, scheme: Scheme, signedChar: bool, deflt: seq<byte>)

  datatype Pair = Pair(zero: Image, one: Image)

  datatype Device = Zero | One

  function Other(d: Device): Device { if d == Zero then One else Zero }

  function Of(p: Pair, d: Device): Image { if d == Zero then p.zero else p.one }

  function With(p: Pair, d: Device, img: Image): Pair {
    if d == Zero then p.(zero := img) else p.(one := img)
  }

  // ------------------------------------------------------------- fw_env_open

  const ACTIVE := 1
  const OBSOLETE := 0

  /** The flag byte as a plain char, which is signed on some machines */
  function CharOf(su: Setup, b: byte): int {
    if su.signedChar && b >= 128 then b - 256 else b
  }

  /** The switch over the flag scheme, when both copies are intact */
  function Choose(su: Setup, b0: byte, b1: byte): Device {
    var flag0, flag1 := CharOf(su, b0), CharOf(su, b1);
    match su.scheme
    case Boolean =>
      if flag0 == ACTIVE && flag1 == OBSOLETE then Zero
      else if flag0 == OBSOLETE && flag1 == ACTIVE then One
      else if flag0 == flag1 then Zero
      else if flag0 == 0xFF then Zero
      else if flag1 == 0xFF then One
      else Zero
    case Incremental =>
      if (flag0 == 255 && flag1 == 0) || flag1 > flag0 then One
      else if (flag1 == 255 && flag0 == 0) || flag0 > flag1 then Zero
      else Zero
  }

  /** dev_current, and the flag and data an open leaves in memory */
  datatype Opened = Opened(dev: Device, flag: byte, data: seq<byte>)

  /** memcpy of the default environment over the data of the first copy */
  function Overlay(deflt: seq<byte>, data: seq<byte>): seq<byte> {
    if |deflt| <= |data| then deflt + data[|deflt|..] else deflt
  }

  function Open(su: Setup, p: Pair): Opened {
    var ok0, ok1 := Intact(su.crc, p.zero), Intact(su.crc, p.one);
    if !ok0 && !ok1 then Opened(Zero, p.zero.flag, Overlay(su.deflt, p.zero.data))
    else
      var dev := if !ok1 then Zero else if !ok0 then One else Choose(su, p.zero.flag, p.one.flag);
      Opened(dev, Of(p, dev).flag, Of(p, dev).data)
  }

  // ------------------------------------------------------------ fw_env_close

  function NewFlag(su: Setup, flag: byte): byte {
    if su.scheme == Boolean then ACTIVE else (flag + 1) % 256
  }

  function NewImage(su: Setup, o: Opened, data: seq<byte>): Image {
    Image(su.crc(data), NewFlag(su, o.flag), data)
  }

  /** flash_flag_obsolete, in the boolean scheme */
  function Retired(su: Setup, img: Image): Image {
    if su.scheme == Boolean then img.(flag := OBSOLETE) else img
  }

  /** Both copies after a close of data that came to its end */
  function Closed(su: Setup, p: Pair, data: seq<byte>): Pair {
    var o := Open(su, p);
    With(With(p, Other(o.dev), NewImage(su, o, data)), o.dev, Retired(su, Of(p, o.dev)))
  }

  /** Both copies after a power loss during a close of data: the copy being written can hold
      anything whose checksum gives it away unless it is all old or all new, or it is written
      and the flag byte of the other copy holds anything. */
  ghost predicate CrashedIn(su: Setup, p: Pair, data: seq<byte>, p': Pair) {
    var o := Open(su, p);
    var target := Other(o.dev);
    || (exists img :: Torn(su, p, data, img) && p' == With(p, target, img))
    || (exists f: byte :: su.scheme == Boolean
         && p' == With(With(p, target, NewImage(su, o, data)), o.dev, Of(p, o.dev).(flag := f)))
  }

  ghost predicate Torn(su: Setup, p: Pair, data: seq<byte>, img: Image) {
    var o := Open(su, p);
    Intact(su.crc, img) ==> img == Of(p, Other(o.dev)) || img == NewImage(su, o, data)
  }

  // ---------------------------------------------- which copy and which flags

  /** Of two intact copies the second one is taken exactly where its counter is larger or has just
      wrapped to 0; on a machine whose chars are signed the counters count from 128 up to 127. */
  lemma IncrementalChoice(su: Setup, b0: byte, b1: byte)
    requires su.scheme == Incremental
    ensures Choose(su, b0, b1) == One <==>
      if su.signedChar then (b1 + 128) % 256 > (b0 + 128) % 256 else b1 > b0 || (b0 == 255 && b1 == 0)
  {
    assert su.signedChar ==> (b0 + 128) % 256 == CharOf(su, b0) + 128 && (b1 + 128) % 256 == CharOf(su, b1) + 128;
  }

  /** In the boolean scheme it is taken exactly where the first is marked 0 and it 1, or where it
      alone is marked 255, which a signed char never equals. */
  lemma BooleanChoice(su: Setup, b0: byte, b1: byte)
    requires su.scheme == Boolean
    ensures Choose(su, b0, b1) == One <==> (b0 == 0 && b1 == 1) || (!su.signedChar && b0 != 255 && b1 == 255)
  {
  }

  /** A close replaces the copy that was not opened. Its flag is the next counter, or 1 where the
      copy that was opened is then marked 0; nothing else changes. */
  lemma ClosedCopies(su: Setup, p: Pair, data: seq<byte>)
    ensures var o, c := Open(su, p), Closed(su, p, data);
      var target, source := Of(c, Other(o.dev)), Of(c, o.dev);
      && target.sum == su.crc(data) && target.data == data
      && source.sum == Of(p, o.dev).sum && source.data == Of(p, o.dev).data
      && if su.scheme == Boolean then target.flag == 1 && source.flag == 0
         else target.flag == (o.flag + 1) % 256 && source.flag == Of(p, o.dev).flag
  {
  }

  // ------------------------------------- when a finished close is the one found

  /** The flag values where the counter wraps in a way the first test of the switch misses. */
  predicate Stale(su: Setup, dev: Device, flag: byte) {
    su.scheme == Incremental && if su.signedChar then flag == 127 else dev == One && flag == 255
  }

  /** A finished close is found by the next open in every case but one: both copies were
      intact or the current one was, and its flag is stale. */
  lemma FinishedIsFound(su: Setup, p: Pair, data: seq<byte>)
    ensures var o := Open(su, p); var n := Open(su, Closed(su, p, data));
      if Intact(su.crc, Of(p, o.dev)) && Stale(su, o.dev, o.flag)
      then n == o
      else n == Opened(Other(o.dev), NewFlag(su, o.flag), data)
  {
  }

  /** Power-loss atomicity: after a crash anywhere in a close, the next open finds the whole
      old environment or the whole new one; in the incremental scheme it is just the open of
      before the close or the open of after it, with the same device and flag. */
  lemma CrashIsAtomic(su: Setup, p: Pair, data: seq<byte>, p': Pair)
    requires CrashedIn(su, p, data, p')
    ensures Open(su, p').data in {Open(su, p).data, data}
    ensures su.scheme == Incremental ==> Open(su, p') in {Open(su, p), Open(su, Closed(su, p, data))}
  {
  }

  // --------------------------------------------------- whole histories of a store

  /** One open and close: it came to its end, or power was lost and p' is what is left. */
  datatype Event = Finished(data: seq<byte>) | Crashed(data: seq<byte>, left: Pair)

  function After(su: Setup, p: Pair, e: Event): Pair {
    if e.Finished? then Closed(su, p, e.data) else e.left
  }

  /** Both copies at the end of a history; the last event is the last of the list. */
  function End(su: Setup, p: Pair, events: seq<Event>): Pair
    decreases events
  {
    if events == [] then p else End(su, After(su, p, events[0]), events[1..])
  }

  /** Every crash of the history is one that a close can suffer. */
  ghost predicate Happens(su: Setup, p: Pair, events: seq<Event>)
    decreases events
  {
    events != [] ==>
      && (events[0].Crashed? ==> CrashedIn(su, p, events[0].data, events[0].left))
      && Happens(su, After(su, p, events[0]), events[1..])
  }

  /** What the next open may return: the last data whose close came to its end, or data of
      a close that crashed since then. */
  function Allowed(found: set<seq<byte>>, events: seq<Event>): set<seq<byte>>
    decreases events
  {
    if events == [] then found
    else Allowed(if events[0].Finished? then {events[0].data} else found + {events[0].data}, events[1..])
  }

  /** No history loses a close that came to its end. */
  ghost predicate Durable(su: Setup, p: Pair) {
    forall events :: Happens(su, p, events) ==> Open(su, End(su, p, events)).data in Allowed({Open(su, p).data}, events)
  }

  function Number(d: Device): nat { if d == Zero then 0 else 1 }

  /** The current device and its flag are of different parity; both change with each close. */
  predicate OffBeat(o: Opened) { (Number(o.dev) + o.flag) % 2 == 1 }

  /** Closes from here on never meet the stale flag. */
  predicate Sound(su: Setup, p: Pair) {
    su.scheme == Boolean || (!su.signedChar && OffBeat(Open(su, p)))
  }

  lemma EventKeepsSound(su: Setup, p: Pair, e: Event)
    requires Sound(su, p) && (e.Crashed? ==> CrashedIn(su, p, e.data, e.left))
    ensures Sound(su, After(su, p, e))
    ensures Open(su, After(su, p, e)).data in (if e.Finished? then {e.data} else {Open(su, p).data, e.data})
  {
    FinishedIsFound(su, p, e.data);
    if e.Crashed? { CrashIsAtomic(su, p, e.data, e.left); }
  }

  lemma {:induction false} SoundRun(su: Setup, p: Pair, events: seq<Event>, found: set<seq<byte>>)
    requires Sound(su, p) && Happens(su, p, events) && Open(su, p).data in found
    ensures Open(su, End(su, p, events)).data in Allowed(found, events)
    decreases events
  {
    hide Open, Closed, CrashedIn, Sound;
    if events != [] {
      var e := events[0];
      EventKeepsSound(su, p, e);
      SoundRun(su, After(su, p, e), events[1..], if e.Finished? then {e.data} else found + {e.data});
    }
  }

  /** The current copy is intact and its flag is stale. */
  predicate Stuck(su: Setup, p: Pair) {
    var o := Open(su, p);
    Intact(su.crc, Of(p, o.dev)) && Stale(su, o.dev, o.flag)
  }

  /** A store that is stuck returns the same environment for ever, whatever is closed. */
  lemma {:induction false} StuckForEver(su: Setup, p: Pair, events: seq<Event>)
    requires Stuck(su, p) && Happens(su, p, events)
    ensures Stuck(su, End(su, p, events)) && Open(su, End(su, p, events)) == Open(su, p)
    decreases events
  {
    if events != [] {
      StuckStep(su, p, events[0]);
      hide Open, Closed, CrashedIn, Stuck;
      StuckForEver(su, After(su, p, events[0]), events[1..]);
    }
  }

  lemma StuckStep(su: Setup, p: Pair, e: Event)
    requires Stuck(su, p) && (e.Crashed? ==> CrashedIn(su, p, e.data, e.left))
    ensures Stuck(su, After(su, p, e)) && Open(su, After(su, p, e)) == Open(su, p)
  {
  }

  /** Closes left until the flag is stale */
  function Distance(su: Setup, p: Pair): nat {
    var o := Open(su, p);
    if !su.signedChar then 255 - o.flag
    else (127 - o.flag) % 256 + if Intact(su.crc, Of(p, o.dev)) then 0 else 256
  }

  function Repeat(data: seq<byte>, n: nat): seq<Event> { seq(n, i => Finished(data)) }

  /** Without the parity, closes alone lead to a stuck store. */
  lemma {:induction false} GetsStuck(su: Setup, p: Pair, data: seq<byte>) returns (n: nat)
    requires !Sound(su, p) && Open(su, p).data == data
    ensures Stuck(su, End(su, p, Repeat(data, n))) && Open(su, End(su, p, Repeat(data, n))).data == data
    ensures Happens(su, p, Repeat(data, n))
    decreases Distance(su, p)
  {
    if Stuck(su, p) {
      n := 0;
    } else {
      CloseNears(su, p, data);
      var m := GetsStuck(su, Closed(su, p, data), data);
      n := m + 1;
      assert Repeat(data, n)[1..] == Repeat(data, m);
    }
  }

  lemma CloseNears(su: Setup, p: Pair, data: seq<byte>)
    requires !Sound(su, p) && !Stuck(su, p)
    ensures !Sound(su, Closed(su, p, data)) && Open(su, Closed(su, p, data)).data == data
    ensures Distance(su, Closed(su, p, data)) < Distance(su, p)
  {
    FinishedIsFound(su, p, data);
    var q := Closed(su, p, data);
    assert Intact(su.crc, Of(q, Open(su, q).dev));
  }

  lemma {:induction false} EndOfMore(su: Setup, p: Pair, events: seq<Event>, e: Event)
    ensures End(su, p, events + [e]) == After(su, End(su, p, events), e)
    ensures Happens(su, p, events) && e.Finished? ==> Happens(su, p, events + [e])
    decreases events
  {
    hide Open, Closed, CrashedIn;
    if events == [] {
      assert events + [e] == [e];
    } else {
      assert (events + [e])[1..] == events[1..] + [e];
      EndOfMore(su, After(su, p, events[0]), events[1..], e);
    }
  }

  lemma {:induction false} AllowedLast(found: set<seq<byte>>, events: seq<Event>, data: seq<byte>)
    ensures Allowed(found, events + [Finished(data)]) == {data}
    decreases events
  {
    if events == [] {
      assert events + [Finished(data)] == [Finished(data)];
    } else {
      var e := events[0];
      assert (events + [Finished(data)])[1..] == events[1..] + [Finished(data)];
      AllowedLast(if e.Finished? then {e.data} else found + {e.data}, events[1..], data);
    }
  }

  /** Durability over every history of closes and crashes, exactly: in the boolean scheme always;
      in the incremental one just when char is unsigned and the current device and its flag are
      of different parity. */
  lemma DurableExactly(su: Setup, p: Pair)
    ensures Durable(su, p) <==> Sound(su, p)
  {
    hide Open, Closed, CrashedIn;
    if Sound(su, p) {
      forall events | Happens(su, p, events)
        ensures Open(su, End(su, p, events)).data in Allowed({Open(su, p).data}, events)
      {
        SoundRun(su, p, events, {Open(su, p).data});
      }
    } else {
      var data := Open(su, p).data;
      var first: byte := if data != [] && data[0] == 0 then 1 else 0;
      var lost := [first] + if data == [] then [] else data[1..];
      var n := GetsStuck(su, p, data);
      var events := Repeat(data, n);
      EndOfMore(su, p, events, Finished(lost));
      AllowedLast({data}, events, lost);
      StuckStep(su, End(su, p, events), Finished(lost));
      assert Open(su, End(su, p, events + [Finished(lost)])).data != lost;
    }
  }

  /** A store that starts from erased flash is durable where char is unsigned. */
  lemma ErasedIsDurable(su: Setup, p: Pair)
    requires !su.signedChar && p.zero.flag == 0xFF && !Intact(su.crc, p.zero) && !Intact(su.crc, p.one)
    ensures Durable(su, p)
  {
    DurableExactly(su, p);
  }
}
