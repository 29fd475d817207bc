/** How bytes become lines: the stream cut at CR LF with empty lines dropped, and the buffer of
    readline, which sees the stream in arbitrary pieces. */
module AtFrames {
  import opened AtText
  import opened Wrappers

  const MAX_AT_RESPONSE: nat := 8192

  // ------------------------------------------------------------ the whole stream

  predicate EolAt(s: Text, i: nat) { i + 1 < |s| && s[i] == '\r' && s[i + 1] == '\n' }

  /** The first CR LF from i on, or the length of s */
  function FindEol(s: Text, i: nat): (r: nat)
    requires i <= |s|
    ensures i <= r <= |s| && (r < |s| ==> EolAt(s, r)) && forall k :: i <= k < r ==> !EolAt(s, k)
    decreases |s| - i
  {
    if i >= |s| then |s| else if EolAt(s, i) then i else FindEol(s, i + 1)
  }

  function SkipEols(s: Text): (r: Text)
    ensures |r| <= |s| && r == s[|s| - |r|..] && !EolAt(r, 0)
    decreases |s|
  {
    if EolAt(s, 0) then SkipEols(s[2..]) else s
  }

  datatype Framed = Framed(lines: seq<Text>, rest: Text)

  /** The stream cut at every CR LF, without empty lines, and what follows the last cut */
  function Frames(s: Text): Framed
    decreases |s|
  {
    if s == [] then Framed([], [])
    else if EolAt(s, 0) then Frames(s[2..])
    else
      var i := FindEol(s, 0);
      if i == |s| then Framed([], s)
      else
        var f := Frames(s[i + 2..]);
        Framed([s[..i]] + f.lines, f.rest)
  }

  lemma EolUnique(s: Text, i: nat, j: nat)
    requires i <= j <= |s| && forall k :: i <= k < j ==> !EolAt(s, k)
    requires j < |s| ==> EolAt(s, j)
    ensures FindEol(s, i) == j
    decreases j - i
  {
    var r := FindEol(s, i);
    assert r < |s| ==> EolAt(s, r);
  }

  /** A line that ends in a stays the first line when more follows. */
  lemma FirstLine(a: Text, b: Text)
    requires a != [] && !EolAt(a, 0) && FindEol(a, 0) < |a|
    ensures var i := FindEol(a, 0);
      Frames(a + b) == Framed([a[..i]] + Frames(a[i + 2..] + b).lines, Frames(a[i + 2..] + b).rest)
  {
    var i := FindEol(a, 0);
    assert forall k :: 0 <= k < i ==> (EolAt(a + b, k) <==> EolAt(a, k));
    assert EolAt(a + b, i);
    EolUnique(a + b, 0, i);
    assert (a + b)[..i] == a[..i] && (a + b)[i + 2..] == a[i + 2..] + b;
  }

  /** Cutting can stop anywhere and go on with what was left. */
  lemma {:induction false} FramesSplit(a: Text, b: Text)
    ensures Frames(a + b) == Framed(Frames(a).lines + Frames(Frames(a).rest + b).lines, Frames(Frames(a).rest + b).rest)
    decreases |a|
  {
    hide FindEol;
    if a == [] {
      assert a + b == b && [] + b == b;
    } else if EolAt(a, 0) {
      assert EolAt(a + b, 0) && (a + b)[2..] == a[2..] + b;
      FramesSplit(a[2..], b);
    } else if FindEol(a, 0) < |a| {
      var i := FindEol(a, 0);
      FirstLine(a, b);
      FramesSplit(a[i + 2..], b);
      Grow(a[..i], Frames(a[i + 2..]).lines, Frames(Frames(a[i + 2..]).rest + b).lines);
    } else {
      assert [] + Frames(a + b).lines == Frames(a + b).lines;
    }
  }

  lemma Grow(line: Text, f: seq<Text>, g: seq<Text>)
    ensures [line] + (f + g) == [line] + f + g
  {
  }

  // ---------------------------------------------------------- the buffer

  /** ATBufferCur as an offset, and the bytes from there to ATBufferEnd */
  datatype Buffer = Buffer(off: nat, pending: Text)

  const EMPTY := Buffer(0, [])

  function End(b: Buffer): nat { b.off + |b.pending| }

  datatype Tried = Tried(line: Option<Text>, after: Buffer)

  /** tryALine, with findNextEOL */
  function Try(b: Buffer): (r: Tried)
    ensures r.line.Some? ==> |r.after.pending| < |b.pending|
  {
    var s := SkipEols(b.pending);
    var off := End(b) - |s|;
    if |s| < 2 then Tried(None, Buffer(off, s))
    else if s == PROMPT then Tried(Some(s), Buffer(off + 2, []))
    else
      var i := FindEol(s, 0);
      if i == |s| then Tried(None, Buffer(0, s))
      else Tried(Some(s[..i]), Buffer(off + i + 2, s[i + 2..]))
  }

  /** The end of readline: an empty buffer starts at its front again. */
  function Settle(b: Buffer): Buffer { if b.pending == [] then EMPTY else b }

  /** A full buffer is thrown away before the next read. */
  predicate Full(b: Buffer) { End(b) >= MAX_AT_RESPONSE }

  function Ditch(b: Buffer): Buffer { if Full(b) then EMPTY else b }

  predicate Loses(b: Buffer) { Full(b) && b.pending != [] }

  function Append(b: Buffer, chunk: Text): Buffer { Buffer(b.off, b.pending + chunk) }

  datatype Delivered = Delivered(lines: seq<Text>, after: Buffer)

  /** What readline delivers before it has to read */
  function Drain(b: Buffer): Delivered
    decreases |b.pending|
  {
    var t := Try(b);
    if t.line.None? then Delivered([], t.after)
    else
      var d := Drain(Settle(t.after));
      Delivered([t.line.value] + d.lines, d.after)
  }

  /** What it delivers of a list of reads; each finds room for what it brings. */
  function Deliver(b: Buffer, input: seq<Text>): Delivered
    decreases input
  {
    var d := Drain(b);
    if input == [] then d
    else
      var e := Deliver(Append(Ditch(d.after), input[0]), input[1..]);
      Delivered(d.lines + e.lines, e.after)
  }

  predicate Fit(b: Buffer, input: seq<Text>)
    decreases input
  {
    input == [] ||
    var c := Append(Ditch(Drain(b).after), input[0]);
    input[0] != [] && End(c) <= MAX_AT_RESPONSE && Fit(c, input[1..])
  }

  /** No read of the run finds a full buffer with something in it. */
  predicate Lossless(b: Buffer, input: seq<Text>)
    decreases input
  {
    input == [] || (!Loses(Drain(b).after) && Lossless(Append(Ditch(Drain(b).after), input[0]), input[1..]))
  }

  function Stream(input: seq<Text>): Text
    decreases input
  {
    if input == [] then [] else input[0] + Stream(input[1..])
  }

  /** No line of the stream, and not its unfinished end, starts like the prompt. */
  predicate Promptless(s: Text) {
    var f := Frames(s);
    (forall k :: 0 <= k < |f.lines| ==> !(PROMPT <= f.lines[k])) && !(PROMPT <= f.rest)
  }

  /** The prompt, where it starts a line of the stream, is all of the line, and it does not start
      the unfinished end. */
  predicate PromptsAlone(s: Text) { Alone(Frames(s)) }

  predicate Alone(f: Framed) {
    (forall k :: 0 <= k < |f.lines| ==> !(PROMPT < f.lines[k])) && !(PROMPT <= f.rest)
  }

  // ---------------------------------------------------------------- proofs

  lemma {:induction false} FramesSkip(s: Text)
    ensures Frames(s) == Frames(SkipEols(s))
    decreases |s|
  {
    if EolAt(s, 0) { FramesSkip(s[2..]); }
  }

  lemma PromptIsUnfinished()
    ensures Frames(PROMPT) == Framed([], PROMPT)
  {
    EolUnique(PROMPT, 0, 2);
  }

  /** Trying a line takes the first line of the cut stream, or the prompt if nothing else is left. */
  lemma TryIsFrame(b: Buffer)
    ensures var f, t := Frames(b.pending), Try(b);
      if t.line.None? then f == Framed([], t.after.pending) && f.rest != PROMPT
      else if f == Framed([], PROMPT) then t.line.value == PROMPT && t.after.pending == []
      else f == Framed([t.line.value] + Frames(t.after.pending).lines, Frames(t.after.pending).rest)
    ensures Try(b).line.Some? ==> |Try(b).after.pending| < |b.pending|
  {
    hide Frames, FindEol, SkipEols, PROMPT;
    FramesSkip(b.pending);
    var s := SkipEols(b.pending);
    PromptIsUnfinished();
    if s == [] {
      NothingFramed();
    } else {
      FramesFirst(s, FindEol(s, 0));
      if |s| == 1 { ShortFound(s); }
    }
  }

  lemma ShortFound(s: Text)
    requires |s| == 1
    ensures FindEol(s, 0) == 1 && s != PROMPT
  {
  }

  /** What readline leaves of an unfinished end */
  function Unsent(rest: Text): Text { if rest == PROMPT then [] else rest }

  /** The lines of the bytes in memory, and the prompt if they end with it */
  lemma {:induction false} DrainExactly(b: Buffer)
    ensures var f := Frames(b.pending);
      && Drain(b).lines == (if f.rest == PROMPT then f.lines + [PROMPT] else f.lines)
      && Drain(b).after.pending == Unsent(f.rest)
    decreases |b.pending|
  {
    hide PROMPT, Frames, Try;
    TryIsFrame(b);
    var t := Try(b);
    if t.line.Some? {
      DrainExactly(Settle(t.after));
      if Frames(b.pending) == Framed([], PROMPT) {
        NothingFramed();
        assert [PROMPT] + [] == [] + [PROMPT];
      } else {
        var f := Frames(t.after.pending);
        assert [t.line.value] + (f.lines + [PROMPT]) == [t.line.value] + f.lines + [PROMPT];
      }
    }
  }

  lemma NothingFramed()
    ensures Frames([]) == Framed([], []) && PROMPT != []
  {
  }

  /** Without prompts, just the lines */
  lemma DrainIsFrames(b: Buffer)
    requires Promptless(b.pending)
    ensures Framed(Drain(b).lines, Drain(b).after.pending) == Frames(b.pending)
  {
    hide Drain;
    DrainExactly(b);
  }

  /** An unfinished line is the start of a line, or stays unfinished. */
  lemma RestGoesOn(a: Text, b: Text)
    requires Frames(a) == Framed([], a) && PROMPT <= a
    ensures !Promptless(a + b)
  {
    var s := a + b;
    assert !EolAt(s, 0) && !EolAt(s, 1);
    var i := FindEol(s, 0);
    assert i >= 2;
    if i < |s| {
      assert PROMPT <= s[..i] == Frames(s).lines[0];
    } else {
      assert PROMPT <= s;
    }
  }

  lemma {:induction false} RestIsUnfinished(s: Text)
    ensures Frames(Frames(s).rest) == Framed([], Frames(s).rest)
    decreases |s|
  {
    if s == [] {
    } else if EolAt(s, 0) {
      RestIsUnfinished(s[2..]);
    } else if FindEol(s, 0) < |s| {
      RestIsUnfinished(s[FindEol(s, 0) + 2..]);
    }
  }

  lemma RestIsPlain(a: Text, b: Text)
    requires Frames(a) == Framed([], a) && Promptless(a + b)
    ensures !(PROMPT <= a)
  {
    hide Promptless, Frames;
    if PROMPT <= a { RestGoesOn(a, b); }
  }

  lemma PromptlessStart(a: Text, b: Text)
    requires Promptless(a + b)
    ensures Promptless(a) && Promptless(Frames(a).rest + b)
  {
    FramesSplit(a, b);
    RestIsUnfinished(a);
    LinesPlain(Frames(a + b), Frames(a).lines, Frames(Frames(a).rest + b));
    hide Frames;
    RestIsPlain(Frames(a).rest, b);
  }

  lemma LinesPlain(whole: Framed, f: seq<Text>, g: Framed)
    requires whole == Framed(f + g.lines, g.rest)
    requires forall k :: 0 <= k < |whole.lines| ==> !(PROMPT <= whole.lines[k])
    ensures forall k :: 0 <= k < |f| ==> !(PROMPT <= f[k])
    ensures forall k :: 0 <= k < |g.lines| ==> !(PROMPT <= g.lines[k])
  {
    hide PROMPT;
    assert forall k :: 0 <= k < |f| ==> f[k] == whole.lines[k];
    assert forall k :: 0 <= k < |g.lines| ==> g.lines[k] == whole.lines[|f| + k];
  }

  lemma DitchNothing(b: Buffer, chunk: Text)
    requires !Loses(b)
    ensures Append(Ditch(b), chunk).pending == b.pending + chunk
  {
  }

  lemma EolBehindPrompt(t: Text)
    ensures FindEol(PROMPT + t, 0) == FindEol(t, 0) + 2
  {
    var s, i := PROMPT + t, FindEol(t, 0);
    assert forall k :: 0 <= k < |t| ==> s[k + 2] == t[k];
    forall k | 0 <= k < i + 2
      ensures !EolAt(s, k)
    {
      if k >= 2 { assert !EolAt(t, k - 2); }
    }
    EolUnique(s, 0, i + 2);
  }

  lemma FindNow(t: Text)
    ensures EolAt(t, 0) <==> t != [] && FindEol(t, 0) == 0
  {
  }

  lemma PromptEnds(t: Text)
    requires EolAt(t, 0)
    ensures Frames(PROMPT + t) == Framed([PROMPT] + Frames(t).lines, Frames(t).rest)
  {
    hide FindEol;
    var s := PROMPT + t;
    EolBehindPrompt(t);
    FindNow(t);
    assert s[..2] == PROMPT && s[4..] == t[2..];
  }

  /** The first line, or the unfinished end */
  lemma FramesFirst(s: Text, i: nat)
    requires s != [] && !EolAt(s, 0) && i == FindEol(s, 0)
    ensures Frames(s) == if i == |s| then Framed([], s) else Framed([s[..i]] + Frames(s[i + 2..]).lines, Frames(s[i + 2..]).rest)
  {
    hide FindEol;
  }

  lemma PromptSlices(t: Text, i: nat)
    requires i <= |t|
    ensures (PROMPT + t)[..i + 2] == PROMPT + t[..i] && (i + 2 <= |t| ==> (PROMPT + t)[i + 4..] == t[i + 2..])
  {
  }

  /** Where more follows on its line, it cannot. */
  lemma ExtendedPrompt(t: Text)
    requires !EolAt(t, 0)
    ensures var f, g := Frames(t), Frames(PROMPT + t);
      if FindEol(t, 0) == |t| then f == Framed([], t) && g == Framed([], PROMPT + t)
      else f.lines != [] && f.lines[0] != [] && g == Framed([PROMPT + f.lines[0]] + f.lines[1..], f.rest)
  {
    hide FindEol, Frames;
    var s, i := PROMPT + t, FindEol(t, 0);
    EolBehindPrompt(t);
    FindNow(t);
    FramesFirst(s, i + 2);
    PromptSlices(t, i);
    if t == [] {
      NothingFramed();
    } else {
      FramesFirst(t, i);
    }
    if i < |t| {
      assert Frames(t).lines[1..] == Frames(t[i + 2..]).lines;
    }
  }

  lemma ExtendedShows(t: Text)
    requires !EolAt(t, 0)
    ensures !PromptsAlone(PROMPT + t)
  {
    hide FindEol, Frames;
    ExtendedPrompt(t);
    if FindEol(t, 0) < |t| {
      assert PROMPT < Frames(PROMPT + t).lines[0];
    }
  }

  /** Alone on its line, the prompt can be taken before its CR LF has come. */
  lemma PromptTaken(t: Text)
    requires PromptsAlone(PROMPT + t)
    ensures Frames(PROMPT + t) == Framed([PROMPT] + Frames(t).lines, Frames(t).rest)
  {
    hide PromptsAlone, FindEol, Frames;
    if !EolAt(t, 0) { ExtendedShows(t); }
    PromptEnds(t);
  }

  lemma AloneLater(f: seq<Text>, g: Framed)
    requires Alone(Framed(f + g.lines, g.rest))
    ensures Alone(g)
  {
    hide PROMPT;
    var whole := f + g.lines;
    assert forall k :: 0 <= k < |g.lines| ==> g.lines[k] == whole[|f| + k];
  }

  /** What has been delivered of a stream and what is left of it */
  lemma DrainSplits(b: Buffer, more: Text)
    requires PromptsAlone(b.pending + more)
    ensures var d := Drain(b);
      && PromptsAlone(d.after.pending + more)
      && Frames(b.pending + more) == Framed(d.lines + Frames(d.after.pending + more).lines, Frames(d.after.pending + more).rest)
  {
    hide Frames, Drain, PROMPT, PromptsAlone;
    DrainExactly(b);
    FramesSplit(b.pending, more);
    var f := Frames(b.pending);
    LaterAlone(b.pending + more, f.lines, f.rest + more);
    if f.rest == PROMPT {
      PromptTaken(more);
      LaterAlone(PROMPT + more, [PROMPT], more);
      GrowBetween(f.lines, PROMPT, Frames(more).lines);
      assert [] + more == more;
    }
  }

  lemma GrowBetween(f: seq<Text>, line: Text, g: seq<Text>)
    ensures f + ([line] + g) == f + [line] + g
  {
  }

  lemma LaterAlone(s: Text, f: seq<Text>, t: Text)
    requires PromptsAlone(s) && Frames(s) == Framed(f + Frames(t).lines, Frames(t).rest)
    ensures PromptsAlone(t)
  {
    hide Alone, Frames;
    AloneLater(f, Frames(t));
  }

  /** However the stream is cut into input, the lines delivered are those of the whole stream,
      as long as every prompt is a line of its own and no read finds a full buffer with bytes. */
  lemma {:induction false} DeliverIsFrames(b: Buffer, input: seq<Text>)
    requires Lossless(b, input) && PromptsAlone(b.pending + Stream(input))
    ensures Framed(Deliver(b, input).lines, Deliver(b, input).after.pending) == Frames(b.pending + Stream(input))
    decreases input
  {
    hide Frames, Drain, PromptsAlone, Ditch, Append, Loses;
    var d := Drain(b);
    DrainSplits(b, Stream(input));
    if input == [] {
      assert b.pending + Stream(input) == b.pending && d.after.pending + Stream(input) == d.after.pending;
      DrainAll(b);
    } else {
      var c := Append(Ditch(d.after), input[0]);
      DitchNothing(d.after, input[0]);
      Regroup(d.after.pending, input[0], Stream(input[1..]));
      DeliverIsFrames(c, input[1..]);
    }
  }

  lemma DrainAll(b: Buffer)
    requires PromptsAlone(b.pending)
    ensures Framed(Drain(b).lines, Drain(b).after.pending) == Frames(b.pending)
  {
    hide Drain;
    DrainExactly(b);
  }

  lemma Regroup(a: Text, b: Text, c: Text)
    ensures a + b + c == a + (b + c)
  {
  }

  // -------------------------------------------------------- when the cuts show

  /** Every line fits the buffer with its CR LF, and so does the unfinished end. */
  predicate Short(s: Text) {
    var f := Frames(s);
    (forall k :: 0 <= k < |f.lines| ==> |f.lines[k]| + 2 <= MAX_AT_RESPONSE) && |f.rest| <= MAX_AT_RESPONSE
  }

  /** One read for every byte */
  function Singles(s: Text): (r: seq<Text>)
    decreases s
  {
    if s == [] then [] else [[s[0]]] + Singles(s[1..])
  }

  lemma {:induction false} SinglesStream(s: Text)
    ensures Stream(Singles(s)) == s
    decreases s
  {
    if s != [] {
      SinglesStream(s[1..]);
      assert Singles(s)[1..] == Singles(s[1..]);
    }
  }

  lemma {:induction false} SinglesJoin(s: Text, t: Text)
    ensures Singles(s + t) == Singles(s) + Singles(t)
    decreases s
  {
    if s == [] {
      assert s + t == t;
    } else {
      assert (s + t)[1..] == s[1..] + t;
      SinglesJoin(s[1..], t);
    }
  }

  /** A buffer in which no line is found, as reads of single bytes leave it */
  predicate Waiting(b: Buffer) {
    && FindEol(b.pending, 0) == |b.pending| && b.pending != PROMPT
    && b.off % 2 == 0 && (|b.pending| >= 2 ==> b.off == 0) && End(b) <= MAX_AT_RESPONSE
  }

  lemma WaitingDrains(b: Buffer)
    requires Waiting(b)
    ensures Drain(b) == Delivered([], b)
  {
  }

  /** The next byte finds room and loses nothing. */
  lemma ByteFits(b: Buffer, x: char)
    requires Waiting(b) && |b.pending| < MAX_AT_RESPONSE
    ensures var c := Append(Ditch(b), [x]);
      !Loses(b) && End(c) <= MAX_AT_RESPONSE && c.pending == b.pending + [x]
      && c.off % 2 == 0 && (|b.pending| >= 2 ==> c.off == 0)
  {
  }

  lemma EolAtEnd(p: Text, x: char)
    requires FindEol(p, 0) == |p|
    ensures var s := p + [x];
      FindEol(s, 0) == if |p| > 0 && EolAt(s, |p| - 1) then |p| - 1 else |p| + 1
  {
    var s := p + [x];
    assert forall k :: 0 <= k < |p| - 1 ==> (EolAt(s, k) <==> EolAt(p, k));
    EolUnique(s, 0, if |p| > 0 && EolAt(s, |p| - 1) then |p| - 1 else |p| + 1);
  }

  /** It ends a line, or nothing. */
  lemma ByteTries(c: Buffer, p: Text, x: char)
    requires c.pending == p + [x] && FindEol(p, 0) == |p| && End(c) <= MAX_AT_RESPONSE
    requires c.off % 2 == 0 && (|p| >= 2 ==> c.off == 0)
    ensures var t := Try(c); if t.line.None? then Waiting(t.after) else t.after.pending == []
  {
    hide FindEol, Try, SkipEols, EolAt, PROMPT;
    var s := c.pending;
    EolAtEnd(p, x);
    FindNothing(s);
    if EolAt(s, 0) {
      assert |s| == 2 by { EolOnly(p, x); }
      TryEol(c);
    } else {
      TryNoEol(c);
      PromptIsShort(p, x);
      if FindEol(s, 0) == |p| - 1 { assert s[|p| - 1 + 2..] == []; }
    }
  }

  lemma EolOnly(p: Text, x: char)
    requires EolAt(p + [x], 0) && FindEol(p, 0) == |p|
    ensures |p| == 1
  {
    FindNow(p);
  }

  lemma TryNoEol(b: Buffer)
    requires !EolAt(b.pending, 0)
    ensures var s, i := b.pending, FindEol(b.pending, 0);
      Try(b) == if |s| < 2 then Tried(None, b) else if s == PROMPT then Tried(Some(s), Buffer(b.off + 2, []))
                else if i == |s| then Tried(None, Buffer(0, s)) else Tried(Some(s[..i]), Buffer(b.off + i + 2, s[i + 2..]))
  {
    hide FindEol;
  }

  lemma TryEol(b: Buffer)
    requires EolAt(b.pending, 0) && |b.pending| == 2
    ensures Try(b) == Tried(None, Buffer(b.off + 2, [])) && FindEol([], 0) == 0 && PROMPT != []
  {
    hide FindEol;
    assert b.pending[2..] == [];
    NoEols();
  }

  lemma NoEols()
    ensures SkipEols([]) == [] && FindEol([], 0) == 0 && PROMPT != []
  {
  }

  lemma PromptIsShort(p: Text, x: char)
    ensures p + [x] == PROMPT ==> |p| == 1
  {
  }

  lemma ByteDrains(c: Buffer, p: Text, x: char)
    requires c.pending == p + [x] && FindEol(p, 0) == |p| && End(c) <= MAX_AT_RESPONSE
    requires c.off % 2 == 0 && (|p| >= 2 ==> c.off == 0)
    ensures Waiting(Drain(c).after)
  {
    hide Try, Waiting;
    ByteTries(c, p, x);
    assert Waiting(EMPTY) by { EmptyWaits(); }
    DrainShort(EMPTY);
  }

  lemma EmptyWaits()
    ensures Waiting(EMPTY)
  {
    NoEols();
  }

  lemma FindNothing(s: Text)
    ensures FindEol([], 0) == 0 && (FindEol(s, 0) == |s| ==> !EolAt(s, 0)) && (EolAt(s, 0) ==> FindEol(s, 0) == 0)
    ensures |s| < 2 ==> FindEol(s, 0) == |s|
  {
    if |s| < 2 { EolUnique(s, 0, |s|); }
  }

  /** The part of a line that waits leaves room in the buffer. */
  lemma RoomLeft(p: Text, x: char, more: Text)
    requires FindEol(p, 0) == |p| && Short(p + [x] + more)
    ensures |p| < MAX_AT_RESPONSE
  {
    var s := p + [x] + more;
    if |p| >= 2 {
      forall k | 0 <= k < |p| - 1
        ensures !EolAt(s, k)
      {
        assert !EolAt(p, k);
      }
      var i := FindEol(s, 0);
      FramesFirst(s, i);
      assert i >= |p| - 1;
      if i < |s| { assert Frames(s).lines[0] == s[..i]; }
    }
  }

  lemma ShortLater(s: Text, f: seq<Text>, t: Text)
    requires Short(s) && Frames(s) == Framed(f + Frames(t).lines, Frames(t).rest)
    ensures Short(t)
  {
    hide Frames;
    var g := Frames(t);
    assert forall k :: 0 <= k < |g.lines| ==> g.lines[k] == Frames(s).lines[|f| + k];
  }

  lemma ShortBehindPrompt(t: Text)
    requires Short(PROMPT + t)
    ensures Short(t)
  {
    hide Frames, FindEol, PromptsAlone;
    if EolAt(t, 0) {
      PromptEnds(t);
      ShortLater(PROMPT + t, [PROMPT], t);
    } else {
      ExtendedPrompt(t);
      var f, g := Frames(t), Frames(PROMPT + t);
      if f.lines != [] {
        assert |g.lines[0]| > |f.lines[0]|;
        assert forall k :: 1 <= k < |f.lines| ==> f.lines[k] == g.lines[k];
      }
    }
  }

  lemma DrainStaysShort(b: Buffer, more: Text)
    requires Short(b.pending + more)
    ensures Short(Drain(b).after.pending + more)
  {
    hide Frames, Drain, Short, PROMPT;
    DrainExactly(b);
    FramesSplit(b.pending, more);
    var f := Frames(b.pending);
    ShortLater(b.pending + more, f.lines, f.rest + more);
    if f.rest == PROMPT {
      ShortBehindPrompt(more);
      assert [] + more == more;
    }
  }

  /** Byte by byte, every stream of short lines can be read without a loss. */
  lemma {:induction false} SinglesFit(b: Buffer, s: Text)
    requires Waiting(Drain(b).after) && Short(Drain(b).after.pending + s)
    ensures Fit(b, Singles(s)) && Lossless(b, Singles(s)) && Waiting(Deliver(b, Singles(s)).after)
    decreases s
  {
    hide Drain, Waiting, Short, Append, Ditch, Loses;
    if s != [] {
      var d := Drain(b).after;
      assert Waiting(d) ==> FindEol(d.pending, 0) == |d.pending| by { WaitsForEol(d); }
      Regroup(d.pending, [s[0]], s[1..]);
      assert [s[0]] + s[1..] == s;
      RoomLeft(d.pending, s[0], s[1..]);
      ByteFits(d, s[0]);
      var c := Append(Ditch(d), [s[0]]);
      ByteDrains(c, d.pending, s[0]);
      DrainStaysShort(c, s[1..]);
      SinglesFit(c, s[1..]);
      assert Singles(s)[0] == [s[0]] && Singles(s)[1..] == Singles(s[1..]);
    }
  }

  lemma WaitsForEol(b: Buffer)
    requires Waiting(b)
    ensures FindEol(b.pending, 0) == |b.pending|
  {
  }

  /** Whatever the cuts, no line of the stream is lost: a prompt can only be delivered besides. */
  lemma {:induction false} DeliverAtLeast(b: Buffer, input: seq<Text>)
    requires Lossless(b, input)
    ensures var f, d := Frames(b.pending + Stream(input)), Deliver(b, input);
      && |d.lines| >= |f.lines| + (if f.rest == PROMPT then 1 else 0)
      && (f.rest == PROMPT || f.rest == [] ==> d.after.pending == [])
    decreases input
  {
    hide Frames, Drain, PROMPT, Append, Ditch, Loses;
    var d, f, more := Drain(b), Frames(b.pending), Stream(input);
    DrainExactly(b);
    FramesSplit(b.pending, more);
    if input == [] {
      assert b.pending + more == b.pending;
    } else {
      DitchNothing(d.after, input[0]);
      Regroup(d.after.pending, input[0], Stream(input[1..]));
      DeliverAtLeast(Append(Ditch(d.after), input[0]), input[1..]);
      if f.rest == PROMPT {
        assert [] + more == more;
        PromptCounts(more);
      }
    }
  }

  lemma PromptCounts(t: Text)
    ensures var f, g := Frames(t), Frames(PROMPT + t);
      && |g.lines| + (if g.rest == PROMPT then 1 else 0) <= 1 + |f.lines| + (if f.rest == PROMPT then 1 else 0)
      && (g.rest == PROMPT || g.rest == [] ==> f.rest == PROMPT || f.rest == [])
      && (!EolAt(t, 0) ==> |g.lines| == |f.lines|)
  {
    hide Frames, FindEol, EolAt;
    if EolAt(t, 0) {
      PromptEnds(t);
    } else {
      ExtendedPrompt(t);
    }
  }

  lemma {:induction false} DeliverJoins(b: Buffer, x: seq<Text>, y: seq<Text>)
    requires Waiting(Deliver(b, x).after)
    ensures Deliver(b, x + y).lines == Deliver(b, x).lines + Deliver(Deliver(b, x).after, y).lines
    ensures Lossless(b, x + y) ==> Lossless(b, x) && Lossless(Deliver(b, x).after, y)
    decreases x
  {
    hide Drain, Append, Ditch, Loses, Waiting;
    if x == [] {
      assert x + y == y;
      WaitingDrains(Drain(b).after);
      JoinFront(b, y);
    } else {
      assert (x + y)[0] == x[0] && (x + y)[1..] == x[1..] + y;
      DeliverJoins(Append(Ditch(Drain(b).after), x[0]), x[1..], y);
    }
  }

  /** Draining twice changes nothing. */
  lemma JoinFront(b: Buffer, y: seq<Text>)
    requires Drain(Drain(b).after) == Delivered([], Drain(b).after)
    ensures Deliver(b, y).lines == Drain(b).lines + Deliver(Drain(b).after, y).lines
    ensures Lossless(b, y) <==> Lossless(Drain(b).after, y)
  {
    hide Drain, Append, Ditch, Loses;
    var lines := Deliver(Drain(b).after, y).lines;
    if y == [] {
      assert Drain(b).lines + [] == Drain(b).lines;
    } else {
      var e := Deliver(Append(Ditch(Drain(b).after), y[0]), y[1..]);
      assert [] + e.lines == e.lines;
    }
  }

  /** A prompt that is not alone, and the stream around it */
  lemma {:induction false} FindPrompt(s: Text) returns (a: Text, t: Text)
    requires !PromptsAlone(s)
    ensures s == a + PROMPT + t && Frames(a).rest == [] && !EolAt(t, 0)
    decreases s
  {
    hide FindEol, Frames;
    NothingFramed();
    if EolAt(s, 0) {
      EolDropped(s);
      a, t := FindPrompt(s[2..]);
      a := s[..2] + a;
      EolDropped(a);
      assert s == s[..2] + s[2..];
    } else {
      var i := FindEol(s, 0);
      if s != [] { FramesFirst(s, i); }
      if i < |s| && !(PROMPT < s[..i]) {
        if Alone(Frames(s[i + 2..])) { AloneBehind(s[..i], Frames(s[i + 2..])); }
        var line := s[..i + 2];
        a, t := FindPrompt(s[i + 2..]);
        FramesFirst(s, i);
        LineDropped(s, i, a);
        a := line + a;
        assert s == line + s[i + 2..];
      } else {
        if i < |s| {
          LongerThanPrompt(s, i);
        } else {
          RestStarts(s);
          assert |s| > 2 ==> !EolAt(s, 2);
        }
        PromptInFront(s);
        a, t := [], s[2..];
      }
    }
  }

  lemma EolDropped(s: Text)
    requires EolAt(s, 0)
    ensures Frames(s) == Frames(s[2..]) && (PromptsAlone(s) <==> PromptsAlone(s[2..]))
  {
  }

  lemma AloneBehind(line: Text, g: Framed)
    requires !(PROMPT < line) && Alone(g)
    ensures Alone(Framed([line] + g.lines, g.rest))
  {
    hide PROMPT;
    var whole := [line] + g.lines;
    assert forall k :: 1 <= k < |whole| ==> whole[k] == g.lines[k - 1];
  }

  lemma LineDropped(s: Text, i: nat, a: Text)
    requires !EolAt(s, 0) && FindEol(s, 0) == i < |s| && Frames(a).rest == []
    ensures Frames(s[..i + 2] + a).rest == []
  {
    var line := s[..i + 2];
    assert forall k :: 0 <= k < i ==> (EolAt(line, k) <==> EolAt(s, k));
    EolUnique(line, 0, i);
    assert line[i + 2..] + a == a;
    FirstLine(line, a);
  }

  lemma RestStarts(s: Text)
    requires !EolAt(s, 0) && FindEol(s, 0) == |s| && !PromptsAlone(s)
    ensures PROMPT <= s
  {
    hide FindEol, PROMPT, Frames;
    if s == [] { NothingFramed(); } else { FramesFirst(s, |s|); }
  }

  lemma PromptInFront(s: Text)
    requires PROMPT <= s && !EolAt(s, 2)
    ensures s == [] + PROMPT + s[2..] && !EolAt(s[2..], 0)
  {
  }

  lemma LongerThanPrompt(s: Text, i: nat)
    requires i == FindEol(s, 0) < |s| && PROMPT < s[..i]
    ensures PROMPT <= s && !EolAt(s, 2)
  {
    hide FindEol;
    assert |s[..i]| > 2 && s[..2] == s[..i][..2];
  }

  lemma StartWaits(s: Text)
    ensures Drain(EMPTY) == Delivered([], EMPTY) && Waiting(EMPTY) && EMPTY.pending + s == s
  {
    hide Drain, Waiting;
    EmptyWaits();
    DrainShort(EMPTY);
    assert [] + s == s;
  }

  lemma ShortFront(a: Text, t: Text)
    requires Short(a + PROMPT + t) && Frames(a).rest == []
    ensures Short(a + PROMPT) && Frames(a + PROMPT) == Framed(Frames(a).lines, PROMPT)
  {
    hide Frames;
    PromptIsUnfinished();
    FramesSplit(a, PROMPT);
    assert [] + PROMPT == PROMPT && Frames(a).lines + [] == Frames(a).lines;
    FramesSplit(a + PROMPT, t);
    var f := Frames(a).lines;
    assert forall k :: 0 <= k < |f| ==> f[k] == Frames(a + PROMPT + t).lines[k];
  }

  /** With a prompt that is not alone, reading byte by byte delivers a line too many. */
  lemma SinglesShow(s: Text)
    requires Short(s) && !PromptsAlone(s)
    ensures |Deliver(EMPTY, Singles(s)).lines| > |Frames(s).lines|
  {
    hide Frames, Deliver, Drain, Lossless, Fit, Short, PromptsAlone, Waiting, FindEol, EolAt, Stream, PROMPT, Singles;
    var a, t := FindPrompt(s);
    var front := a + PROMPT;
    StartWaits(s);
    StartWaits(front);
    SinglesJoin(front, t);
    SinglesFit(EMPTY, s);
    ShortFront(a, t);
    SinglesFit(EMPTY, front);
    DeliverJoins(EMPTY, Singles(front), Singles(t));
    SinglesStream(front);
    SinglesStream(t);
    DeliverAtLeast(EMPTY, Singles(front));
    var between := Deliver(EMPTY, Singles(front)).after;
    assert [] + t == t;
    DeliverAtLeast(between, Singles(t));
    FramesSplit(front, t);
    PromptCounts(t);
  }

  /** For streams of lines that fit the buffer, the lines delivered are those of the whole stream
      however it is cut into reads without a loss, exactly when every prompt that starts a line is
      all of it and none starts the unfinished end. */
  lemma CutsShowExactly(s: Text)
    requires Short(s)
    ensures (forall input :: Stream(input) == s && Fit(EMPTY, input) && Lossless(EMPTY, input) ==> Deliver(EMPTY, input).lines == Frames(s).lines)
      <==> PromptsAlone(s)
  {
    hide Frames, Deliver, Drain, Lossless, Fit, Short, PromptsAlone, Waiting, Stream, Singles;
    StartWaits(s);
    if PromptsAlone(s) {
      forall input | Stream(input) == s && Fit(EMPTY, input) && Lossless(EMPTY, input)
        ensures Deliver(EMPTY, input).lines == Frames(s).lines
      {
        DeliverIsFrames(EMPTY, input);
      }
    } else {
      SinglesShow(s);
      SinglesStream(s);
      SinglesFit(EMPTY, s);
    }
  }

  // ------------------------------------------------------- when bytes are lost

  /** The buffer as the read after the first k ones finds it is just the unfinished end of the
      stream so far. */
  predicate Ready(b: Buffer, input: seq<Text>, k: nat)
    requires k <= |input|
  {
    Ditch(Deliver(b, input[..k]).after).pending == Frames(b.pending + Stream(input[..k])).rest
  }

  /** Losing is exactly when a read does not find the unfinished end of the stream. */
  lemma {:induction false} LosslessExactly(b: Buffer, input: seq<Text>)
    requires Promptless(b.pending + Stream(input))
    ensures Lossless(b, input) <==> forall k :: 0 <= k < |input| ==> Ready(b, input, k)
    decreases input
  {
    hide Frames, Drain, Promptless, Append, FindEol, EolAt, Try;
    if input != [] {
      var d := Drain(b);
      PromptlessStart(b.pending, Stream(input));
      DrainIsFrames(b);
      assert Ready(b, input, 0) <==> !Loses(d.after) by {
        assert input[..0] == [] && b.pending + Stream(input[..0]) == b.pending;
      }
      if !Loses(d.after) {
        var c := Append(Ditch(d.after), input[0]);
        DitchNothing(d.after, input[0]);
        Regroup(d.after.pending, input[0], Stream(input[1..]));
        LosslessExactly(c, input[1..]);
        forall k | 0 < k < |input|
          ensures Ready(b, input, k) <==> Ready(c, input[1..], k - 1)
        {
          ReadyLater(b, input, k);
        }
        assert (forall k :: 0 <= k < |input| ==> Ready(b, input, k)) ==> forall j :: 0 <= j < |input| - 1 ==> Ready(c, input[1..], j) by {
          assert forall j :: 0 <= j < |input| - 1 ==> (Ready(b, input, j + 1) <==> Ready(c, input[1..], j));
        }
      }
    }
  }

  lemma ReadyLater(b: Buffer, input: seq<Text>, k: nat)
    requires 0 < k < |input| && Promptless(b.pending) && !Loses(Drain(b).after)
    ensures Ready(b, input, k) <==> Ready(Append(Ditch(Drain(b).after), input[0]), input[1..], k - 1)
  {
    hide Frames, Drain, Promptless, Append, FindEol, EolAt, Try;
    var d := Drain(b);
    var c := Append(Ditch(d.after), input[0]);
    DitchNothing(d.after, input[0]);
    DrainIsFrames(b);
    assert input[..k][1..] == input[1..][..k - 1];
    FramesSplit(b.pending, Stream(input[..k]));
    Regroup(d.after.pending, input[0], Stream(input[1..][..k - 1]));
  }

  /** It happens to a line that fills the whole buffer, and to a single byte in the last place:
      fewer than two bytes are never moved to the front. */
  lemma LossCases(b: Buffer)
    requires End(b) <= MAX_AT_RESPONSE
    ensures Loses(Drain(b).after) <==>
      |Drain(b).after.pending| == MAX_AT_RESPONSE || (|Drain(b).after.pending| == 1 && Drain(b).after.off == MAX_AT_RESPONSE - 1)
  {
    hide Drain;
    DrainEnds(b);
  }

  lemma TryEnds(b: Buffer)
    requires Try(b).line.None?
    ensures |Try(b).after.pending| < 2 || Try(b).after.off == 0
  {
    hide SkipEols, FindEol;
  }

  lemma {:induction false} DrainEnds(b: Buffer)
    ensures |Drain(b).after.pending| < 2 || Drain(b).after.off == 0
    ensures End(Drain(b).after) <= End(b)
    decreases |b.pending|
  {
    hide SkipEols, FindEol;
    var t := Try(b);
    if t.line.Some? {
      DrainEnds(Settle(t.after));
    } else {
      TryEnds(b);
    }
  }

  /** A line, its CR LF, and what follows */
  lemma Take(off: nat, line: Text, rest: Text)
    requires line != [] && forall k :: 0 <= k < |line| ==> line[k] != '\r'
    ensures var s := line + "\r\n" + rest;
      && Frames(s) == Framed([line] + Frames(rest).lines, Frames(rest).rest)
      && Try(Buffer(off, s)) == Tried(Some(line), Buffer(off + |line| + 2, rest))
  {
    var s := line + "\r\n" + rest;
    assert s[..|line|] == line && s[|line| + 2..] == rest;
    assert s[|line|] == '\r' && s[|line| + 1] == '\n';
    assert EolAt(s, |line|);
    assert forall k :: 0 <= k < |line| ==> s[k] == line[k];
    EolUnique(s, 0, |line|);
  }

  lemma DrainTake(off: nat, line: Text, rest: Text)
    requires line != [] && |rest| < 2 && forall k :: 0 <= k < |line| ==> line[k] != '\r'
    ensures Drain(Buffer(off, line + "\r\n" + rest)) == Delivered([line], Settle(Buffer(off + |line| + 2, rest)))
  {
    hide *;
    Take(off, line, rest);
    DrainOnce(Buffer(off, line + "\r\n" + rest), line, Buffer(off + |line| + 2, rest));
  }

  lemma DrainOnce(b: Buffer, line: Text, after: Buffer)
    requires Try(b) == Tried(Some(line), after) && |after.pending| < 2
    ensures Drain(b) == Delivered([line], Settle(after))
  {
    hide Try;
    DrainShort(Settle(after));
    assert Drain(b) == Delivered([line] + [], Settle(after));
    assert [line] + [] == [line];
  }

  lemma DrainShort(b: Buffer)
    requires |b.pending| < 2
    ensures Drain(b) == Delivered([], b)
  {
    hide Try;
    TryShort(b);
  }

  lemma TryShort(b: Buffer)
    requires |b.pending| < 2
    ensures Try(b) == Tried(None, b)
  {
    hide FindEol;
  }

  lemma FramesShort(s: Text)
    requires |s| < 2
    ensures Frames(s) == Framed([], s)
  {
    EolUnique(s, 0, |s|);
  }

  lemma DeliverMore(b: Buffer, first: Text, input: seq<Text>)
    ensures Deliver(b, [first] + input) ==
      (var d := Drain(b);
       var e := Deliver(Append(Ditch(d.after), first), input);
       Delivered(d.lines + e.lines, e.after))
    ensures Stream([first] + input) == first + Stream(input)
  {
    hide Drain;
    assert ([first] + input)[1..] == input;
  }

  /** Two reads */
  lemma DeliverTwo(first: Text, second: Text)
    ensures Deliver(EMPTY, [first, second]) ==
      (var b := Drain(Buffer(0, first));
       var c := Drain(Append(Ditch(b.after), second));
       Delivered(b.lines + c.lines, c.after))
    ensures Stream([first, second]) == first + second
  {
    hide *;
    DeliverMore(EMPTY, first, [second]);
    DeliverMore(Buffer(0, first), second, []);
    assert [first] + [second] == [first, second] && [second] + [] == [second];
    FirstRead(first);
    DeliverEnds(Append(Ditch(Drain(Buffer(0, first)).after), second));
    assert second + [] == second;
    var lines := Drain(Buffer(0, first)).lines + Drain(Append(Ditch(Drain(Buffer(0, first)).after), second)).lines;
    assert [] + lines == lines;
  }

  lemma FirstRead(first: Text)
    ensures Drain(EMPTY) == Delivered([], EMPTY) && Append(Ditch(EMPTY), first) == Buffer(0, first)
  {
    hide Drain;
    DrainShort(EMPTY);
    assert [] + first == first;
  }

  lemma DeliverEnds(b: Buffer)
    ensures Deliver(b, []) == Drain(b) && Stream([]) == []
  {
  }

  /** So a byte can be lost although no line comes near the size of the buffer: it stood alone
      behind the last CR LF of a read that filled the buffer. */
  lemma ByteLost(line: Text)
    requires |line| == MAX_AT_RESPONSE - 3 && forall k :: 0 <= k < |line| ==> line[k] != '\r' && line[k] != '>'
    ensures var input := [line + "\r\n" + "b", "c\r\n"];
      && Promptless(Stream(input))
      && Frames(Stream(input)).lines == [line, "bc"]
      && Deliver(EMPTY, input).lines == [line, "c"]
  {
    hide Drain, Deliver, Stream, Try, Frames;
    var first, second := line + "\r\n" + "b", "c\r\n";
    DeliverTwo(first, second);
    DrainTake(0, line, "b");
    DrainTake(0, "c", "");
    assert "c" + "\r\n" + "" == second;
    assert Append(EMPTY, second) == Buffer(0, second) by { assert [] + second == second; }
    assert first + second == line + "\r\n" + ("bc" + "\r\n" + "");
    TwoLines(line, "bc");
    NoPrompts(first + second, line, "bc");
  }

  lemma NoPrompts(s: Text, a: Text, b: Text)
    requires Frames(s) == Framed([a, b], []) && a != [] && b != [] && a[0] != '>' && b[0] != '>'
    ensures Promptless(s)
  {
    hide Frames;
  }

  lemma TwoLines(a: Text, b: Text)
    requires a != [] && (forall k :: 0 <= k < |a| ==> a[k] != '\r') && b != [] && forall k :: 0 <= k < |b| ==> b[k] != '\r'
    ensures Frames(a + "\r\n" + (b + "\r\n" + "")) == Framed([a, b], [])
  {
    hide Frames, Try;
    Take(0, a, b + "\r\n" + "");
    Take(0, b, "");
    FramesShort("");
    assert [a] + ([b] + []) == [a, b];
  }

  /** The prompt is a line only where a read ends with it: with it, the cuts do show. */
  lemma PromptDependsOnCuts(line: Text)
    requires line != [] && forall k :: 0 <= k < |line| ==> line[k] != '\r'
    ensures Stream([PROMPT, line + "\r\n"]) == Stream([PROMPT + line, "\r\n"])
    ensures Deliver(EMPTY, [PROMPT, line + "\r\n"]).lines == [PROMPT, line]
    ensures Deliver(EMPTY, [PROMPT + line, "\r\n"]).lines == [PROMPT + line] || |PROMPT + line| >= MAX_AT_RESPONSE
  {
    hide Drain, Deliver, Stream, Try, Frames, PROMPT;
    DeliverTwo(PROMPT, line + "\r\n");
    DeliverTwo(PROMPT + line, "\r\n");
    Regroup(PROMPT, line, "\r\n");
    DrainPrompt();
    var eol := line + "\r\n";
    assert Append(EMPTY, eol) == Buffer(0, eol + []) by { assert [] + eol == eol + []; }
    DrainTake(0, line, []);
    if |PROMPT + line| < MAX_AT_RESPONSE {
      DrainPartial(PROMPT + line);
      var whole := PROMPT + line + "\r\n";
      assert whole + [] == whole;
      DrainTake(0, PROMPT + line, []);
    }
  }

  lemma DrainPrompt()
    ensures Drain(Buffer(0, PROMPT)) == Delivered([PROMPT], EMPTY) && |PROMPT| == 2 && forall k :: 0 <= k < |PROMPT| ==> PROMPT[k] != '\r'
  {
    hide *;
    TryPrompt();
    DrainOnce(Buffer(0, PROMPT), PROMPT, Buffer(2, []));
  }

  lemma TryPrompt()
    ensures |PROMPT| == 2 && (forall k :: 0 <= k < |PROMPT| ==> PROMPT[k] != '\r') && Settle(Buffer(2, [])) == EMPTY
    ensures Try(Buffer(0, PROMPT)) == Tried(Some(PROMPT), Buffer(2, []))
  {
  }

  lemma DrainPartial(s: Text)
    requires |s| > 2 && forall k :: 0 <= k < |s| ==> s[k] != '\r'
    ensures Drain(Buffer(0, s)) == Delivered([], Buffer(0, s))
  {
    EolUnique(s, 0, |s|);
  }
}
