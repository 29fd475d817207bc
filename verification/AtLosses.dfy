/** What a loss of bytes does to the lines: on streams in which every CR and LF belongs to an end
    of line it always shows, elsewhere two losses can make up for each other. */
module AtLosses {
  import opened AtText
  import opened Wrappers

  import opened AtFrames

  // -------------------------------------------------------------- counting characters

  /** The characters of a line proper, or the line feeds */
  predicate Counted(c: char, plain: bool) { if plain then c != '\r' && c != '\n' else c == '\n' }

  function Count(s: Text, plain: bool): nat
    decreases s
  {
    if s == [] then 0 else (if Counted(s[0], plain) then 1 else 0) + Count(s[1..], plain)
  }

  function Counts(lines: seq<Text>, plain: bool): nat
    decreases lines
  {
    if lines == [] then 0 else Count(lines[0], plain) + Counts(lines[1..], plain)
  }

  function InFramed(f: Framed, plain: bool): nat { Counts(f.lines, plain) + Count(f.rest, plain) }

  /** All that was delivered, and what is left in the buffer */
  function Told(d: Delivered): Framed { Framed(d.lines, d.after.pending) }

  lemma {:induction false} CountJoins(s: Text, t: Text, plain: bool)
    ensures Count(s + t, plain) == Count(s, plain) + Count(t, plain)
    decreases s
  {
    if s == [] {
      assert s + t == t;
    } else {
      assert (s + t)[1..] == s[1..] + t;
      CountJoins(s[1..], t, plain);
    }
  }

  lemma {:induction false} CountsJoin(f: seq<Text>, g: seq<Text>, plain: bool)
    ensures Counts(f + g, plain) == Counts(f, plain) + Counts(g, plain)
    decreases f
  {
    if f == [] {
      assert f + g == g;
    } else {
      assert (f + g)[1..] == f[1..] + g;
      CountsJoin(f[1..], g, plain);
    }
  }

  lemma {:induction false} CountZero(s: Text, plain: bool)
    ensures Count(s, plain) == 0 <==> forall k :: 0 <= k < |s| ==> !Counted(s[k], plain)
    decreases s
  {
    if s != [] {
      CountZero(s[1..], plain);
      assert forall k :: 1 <= k < |s| ==> s[k] == s[1..][k - 1];
    }
  }

  lemma CountEol(s: Text)
    requires EolAt(s, 0)
    ensures Count(s, true) == Count(s[2..], true)
  {
    assert s[1..][1..] == s[2..];
  }

  /** Cutting at CR LF keeps every character of a line proper. */
  lemma {:induction false} FramesCount(s: Text)
    ensures InFramed(Frames(s), true) == Count(s, true)
    decreases |s|
  {
    hide FindEol, Counted;
    if s == [] {
    } else if EolAt(s, 0) {
      CountEol(s);
      FramesCount(s[2..]);
    } else {
      var i := FindEol(s, 0);
      if i < |s| {
        var line, more := s[..i], s[i..];
        assert EolAt(more, 0) && more[2..] == s[i + 2..] && s == line + more;
        CountJoins(line, more, true);
        CountEol(more);
        FramesCount(s[i + 2..]);
        assert [line] + Frames(s[i + 2..]).lines == Frames(s).lines;
        CountsJoin([line], Frames(s[i + 2..]).lines, true);
        assert [line][1..] == [];
      }
    }
  }

  // -------------------------------------------------------------- clean streams

  /** Every LF follows a CR, and every CR that something follows is followed by an LF. */
  predicate Clean(s: Text) { forall i :: 0 <= i < |s| ==> CleanAt(s, i) }

  predicate CleanAt(s: Text, i: nat)
    requires i < |s|
  {
    && (s[i] == '\n' ==> i > 0 && s[i - 1] == '\r')
    && (s[i] == '\r' && i + 1 < |s| ==> s[i + 1] == '\n')
  }

  /** An LF whose CR was lost, and a clean stream */
  predicate Stray(s: Text) { s != [] && s[0] == '\n' && Clean(s[1..]) }

  lemma CleanSuffix(s: Text, k: nat)
    requires Clean(s) && k <= |s| && (k < |s| ==> s[k] != '\n')
    ensures Clean(s[k..])
  {
    forall i | 0 <= i < |s[k..]|
      ensures CleanAt(s[k..], i)
    {
      assert CleanAt(s, k + i);
    }
  }

  lemma CleanBehind(s: Text, k: nat)
    requires Clean(s) && k <= |s|
    ensures k < |s| && s[k] == '\n' ==> Stray(s[k..])
    ensures k == |s| || s[k] != '\n' ==> Clean(s[k..])
    ensures k > 0 && s[k - 1] != '\r' ==> Clean(s[k..])
  {
    if k > 0 && k < |s| { assert CleanAt(s, k); }
    if k == |s| || s[k] != '\n' {
      CleanSuffix(s, k);
    } else {
      assert k + 1 < |s| ==> CleanAt(s, k + 1);
      CleanSuffix(s, k + 1);
      assert s[k..][1..] == s[k + 1..];
    }
  }

  /** Lines of a clean stream have no LF. */
  lemma {:induction false} FramesClean(s: Text)
    requires Clean(s)
    ensures InFramed(Frames(s), false) == 0
    decreases |s|
  {
    hide FindEol, Clean;
    if s == [] {
    } else if EolAt(s, 0) {
      CleanBehind(s, 2);
      FramesClean(s[2..]);
    } else {
      var i := FindEol(s, 0);
      NoFeeds(s, i);
      CountZero(s[..i], false);
      if i < |s| {
        CleanBehind(s, i + 2);
        FramesClean(s[i + 2..]);
      } else {
        assert s[..i] == s;
      }
    }
  }

  lemma NoFeeds(s: Text, i: nat)
    requires Clean(s) && i <= |s| && forall k :: 0 <= k < i ==> !EolAt(s, k)
    ensures forall k :: 0 <= k < i ==> s[k] != '\n'
  {
    forall k | 0 <= k < i
      ensures s[k] != '\n'
    {
      assert CleanAt(s, k);
      if k > 0 { assert !EolAt(s, k - 1); }
    }
  }

  /** The unfinished end starts the stream or stands behind an end of line. */
  lemma {:induction false} RestPlace(s: Text) returns (k: nat)
    ensures k <= |s| && Frames(s).rest == s[k..] && (k == 0 || (k >= 2 && EolAt(s, k - 2)))
    ensures FindEol(Frames(s).rest, 0) == |Frames(s).rest|
    ensures s != [] && !EolAt(s, 0) ==> (Frames(s).lines == [] <==> k == 0)
    ensures s != [] && !EolAt(s, 0) && Frames(s).lines != [] ==> Frames(s).lines[0] != [] && Frames(s).lines[0][0] == s[0]
    decreases |s|
  {
    hide FindEol, Frames;
    if s == [] {
      k := 0;
      NothingFramed();
      FindNothing(s);
    } else if EolAt(s, 0) {
      EolDropped(s);
      k := RestPlace(s[2..]);
      EolFurther(s, 2, k);
      k := k + 2;
    } else {
      var i := FindEol(s, 0);
      FramesFirst(s, i);
      if i == |s| {
        k := 0;
      } else {
        k := RestPlace(s[i + 2..]);
        EolFurther(s, i + 2, k);
        k := k + i + 2;
        FindNow(s);
      }
    }
  }

  lemma EolFurther(s: Text, i: nat, k: nat)
    requires 2 <= i <= |s| && k <= |s| - i && EolAt(s, i - 2) && (k == 0 || (k >= 2 && EolAt(s[i..], k - 2)))
    ensures EolAt(s, i + k - 2) && s[i..][k..] == s[i + k..]
  {
  }

  // ------------------------------------------------------------- losses show

  /** What one buffer delivers before a read */
  lemma DrainCounts(b: Buffer)
    ensures InFramed(Told(Drain(b)), true) == Count(b.pending, true)
    ensures b.pending != [] && b.pending[0] == '\n' ==> InFramed(Told(Drain(b)), false) >= 1
    ensures b.pending != [] && b.pending[0] == '\n' && Frames(b.pending).lines != [] ==> Counts(Drain(b).lines, false) >= 1
  {
    hide Drain, Frames, Counted, FindEol;
    var f := Frames(b.pending);
    DrainExactly(b);
    FramesCount(b.pending);
    if f.rest == PROMPT {
      CountsJoin(f.lines, [PROMPT], true);
      CountsJoin(f.lines, [PROMPT], false);
      PromptCounted();
    }
    if b.pending != [] && b.pending[0] == '\n' {
      var k := RestPlace(b.pending);
      if f.lines == [] {
        FeedFirst(b.pending);
        assert f.rest == b.pending;
      } else {
        FeedFirst(f.lines[0]);
      }
    }
  }

  lemma FeedFirst(s: Text)
    requires s != [] && s[0] == '\n'
    ensures Count(s, false) >= 1 && s != PROMPT
  {
  }

  lemma PromptCounted()
    ensures Counts([PROMPT], true) == Count(PROMPT, true) && Counts([PROMPT], false) == 0 && Count([], true) == 0
  {
    CountZero(PROMPT, false);
    assert [PROMPT][1..] == [];
  }

  /** A line that starts with a stray LF stays where it is until it ends. */
  lemma StrayStays(b: Buffer)
    requires b.off == 0 && (b.pending == [] || (b.pending[0] == '\n' && Frames(b.pending).lines == []))
    ensures Drain(b).after == b
  {
    hide Frames;
    if b.pending != [] {
      var k := RestPlace(b.pending);
      FindNow(b.pending);
      WholeStays(b);
    }
  }

  lemma WholeStays(b: Buffer)
    requires b.off == 0 && FindEol(b.pending, 0) == |b.pending| && b.pending != PROMPT
    ensures Drain(b).after == b
  {
    WholeWaits(b);
    hide Try;
  }

  lemma WholeWaits(b: Buffer)
    requires b.off == 0 && FindEol(b.pending, 0) == |b.pending| && b.pending != PROMPT
    ensures Try(b) == Tried(None, b)
  {
    assert SkipEols(b.pending) == b.pending;
    hide SkipEols, FindEol;
  }

  /** What can be delivered after what has been: nothing is gained, and of a clean stream either a
      character is missing or, if a CR was lost, its LF is there. */
  ghost predicate Shows(b: Buffer, input: seq<Text>) {
    var s, f := b.pending + Stream(input), Told(Deliver(b, input));
    && InFramed(f, true) <= Count(s, true)
    && (InFramed(f, true) == Count(s, true) && (Stray(s) || !Lossless(b, input)) ==> InFramed(f, false) >= 1)
  }

  ghost predicate Placed(b: Buffer, input: seq<Text>) {
    var s := b.pending + Stream(input);
    Clean(s) || (Stray(s) && b.off == 0)
  }

  lemma FitFirst(b: Buffer, input: seq<Text>)
    requires Fit(b, input) && input != []
    ensures var c := Append(Ditch(Drain(b).after), input[0]); input[0] != [] && Fit(c, input[1..])
  {
    hide Drain, Append, Ditch;
  }

  lemma DeliverFirst(b: Buffer, input: seq<Text>, plain: bool)
    requires input != []
    ensures var d, e := Drain(b), Deliver(Append(Ditch(Drain(b).after), input[0]), input[1..]);
      InFramed(Told(Deliver(b, input)), plain) == Counts(d.lines, plain) + InFramed(Told(e), plain)
    ensures Lossless(b, input) <==> !Loses(Drain(b).after) && Lossless(Append(Ditch(Drain(b).after), input[0]), input[1..])
  {
    hide Drain, Append, Ditch, Loses, Count;
    CountsJoin(Drain(b).lines, Deliver(Append(Ditch(Drain(b).after), input[0]), input[1..]).lines, plain);
  }

  /** Where the stream goes on behind what was delivered */
  lemma GoesOn(b: Buffer, more: Text) returns (k: nat)
    ensures k <= |b.pending| && Drain(b).after.pending == b.pending[k..] && Drain(b).after.pending != PROMPT
    ensures k > 0 ==> b.pending[k - 1] != '\r'
    ensures FindEol(Drain(b).after.pending, 0) == |Drain(b).after.pending|
    ensures b.pending != [] && b.pending[0] == '\n' ==> k != 1 && (k == 0 <==> Frames(b.pending).lines == [])
    ensures Drain(b).after.pending + more == (b.pending + more)[k..]
  {
    hide Drain, Frames, FindEol;
    k := RestPlace(b.pending);
    DrainExactly(b);
    FindNothing([]);
    if Frames(b.pending).rest == PROMPT {
      RestPrompt(b.pending, k);
      k := |b.pending|;
    }
  }

  lemma RestPrompt(s: Text, k: nat)
    requires k <= |s| && s[k..] == PROMPT
    ensures |s| == k + 2 && s[|s| - 1] == ' ' && s[k] == '>' && s[|s|..] == []
  {
    assert s[k..][1] == s[k + 1] && s[k..][0] == s[k];
  }

  /** A line that fills the buffer and starts with a stray LF has a character of its own. */
  lemma StrayFull(s: Text, q: Text)
    requires Stray(s) && q <= s && |q| >= 3 && FindEol(q, 0) == |q|
    ensures Count(q, true) > 0
  {
    var t := s[1..];
    assert q[1] == s[1] == t[0] && q[2] == s[2] == t[0 + 1];
    assert CleanAt(t, 0);
    assert !EolAt(q, 1);
    assert Counted(q[1], true);
    CountZero(q, true);
  }

  lemma SecondOf(s: Text, k: nat, q: Text)
    requires k + |q| <= |s| && s[k..k + |q|] == q
    ensures |q| > 1 ==> q[1] == s[k + 1]
  {
  }

  /** The end of a clean stream that holds no character of a line is a CR whose LF comes next. */
  lemma LoneReturn(s: Text, k: nat, q: Text)
    requires Clean(s) && q != [] && k + |q| < |s| && s[k..k + |q|] == q && (k > 0 ==> s[k - 1] != '\r')
    requires FindEol(q, 0) == |q| && Count(q, true) == 0
    ensures s[k + |q|] == '\n' && Stray(s[k + |q|..])
  {
    SecondOf(s, k, q);
    CountZero(q, true);
    assert q[0] == s[k] && !Counted(q[0], true);
    assert CleanAt(s, k);
    assert !EolAt(q, 0) && |q| == 1;
    CleanBehind(s, k + |q|);
  }

  /** What goes on behind the lines that were delivered is clean. */
  lemma CleanGoesOn(b: Buffer, more: Text)
    requires Clean(b.pending + more)
    ensures Clean(Drain(b).after.pending + more)
  {
    hide Drain, Frames, FindEol, Clean;
    var s := b.pending + more;
    var k := GoesOn(b, more);
    if k > 0 {
      assert s[k - 1] == b.pending[k - 1];
      CleanBehind(s, k);
    } else {
      assert s[0..] == s;
    }
  }

  /** A stray LF waits for its line to end, and then the stream is clean again. */
  lemma StrayGoesOn(b: Buffer, more: Text)
    requires Stray(b.pending + more) && b.off == 0
    ensures if b.pending == [] || Frames(b.pending).lines == [] then Drain(b).after == b else Clean(Drain(b).after.pending + more)
  {
    hide Drain, Frames, FindEol, Clean;
    var s := b.pending + more;
    var k := GoesOn(b, more);
    if b.pending != [] { assert b.pending[0] == s[0]; }
    if b.pending == [] || Frames(b.pending).lines == [] {
      StrayStays(b);
    } else {
      assert s[1..][k - 1..] == s[k..] && s[1..][k - 2] == s[k - 1] == b.pending[k - 1];
      CleanBehind(s[1..], k - 1);
    }
  }

  lemma DitchedStart(b: Buffer, chunk: Text)
    requires Loses(b)
    ensures Append(Ditch(b), chunk) == Buffer(0, chunk)
  {
    assert [] + chunk == chunk;
  }

  lemma CleanOrStray(s: Text, k: nat)
    requires Clean(s) && k <= |s|
    ensures Clean(s[k..]) || Stray(s[k..])
  {
    hide Clean;
    CleanBehind(s, k);
  }

  lemma LostClean(s: Text, k: nat, q: Text, more: Text)
    requires Clean(s) && q != [] && more != [] && k <= |s| && s[k..] == q + more && (k > 0 ==> s[k - 1] != '\r')
    requires FindEol(q, 0) == |q|
    ensures Count(q, true) > 0 || Stray(more)
  {
    hide Clean, FindEol, Count;
    assert s[k..k + |q|] == s[k..][..|q|] == q && s[k + |q|..] == s[k..][|q|..] == more;
    if Count(q, true) == 0 { LoneReturn(s, k, q); }
  }

  lemma NothingLost(b: Buffer)
    requires b.pending == []
    ensures !Loses(Drain(b).after)
  {
  }

  lemma FullWhole(b: Buffer)
    requires Loses(b) && b.off == 0
    ensures |b.pending| >= 3
  {
  }

  /** What is left when bytes are lost: a character of a line is gone, or a CR whose LF comes next. */
  lemma LostBytes(b: Buffer, more: Text)
    requires Loses(Drain(b).after) && more != [] && (Clean(b.pending + more) || (Stray(b.pending + more) && b.off == 0))
    ensures Clean(more) || Stray(more)
    ensures Count(Drain(b).after.pending, true) > 0 || Stray(more)
  {
    hide Drain, Frames, FindEol, Clean, Count;
    var s, q := b.pending + more, Drain(b).after.pending;
    var k := GoesOn(b, more);
    assert s[|b.pending|..] == more;
    if Clean(s) {
      CleanOrStray(s, |b.pending|);
      LostClean(s, k, q, more);
    } else {
      StrayGoesOn(b, more);
      var t := s[1..];
      assert b.pending != [] by { if b.pending == [] { NothingLost(b); } }
      assert t[|b.pending| - 1..] == more;
      CleanOrStray(t, |b.pending| - 1);
      if Drain(b).after == b {
        FullWhole(b);
        assert b.pending <= s;
        StrayFull(s, b.pending);
      } else {
        assert k >= 2 && t[k - 2] == s[k - 1];
        LostClean(t, k - 1, q, more);
      }
    }
  }

  lemma StrayFeeds(b: Buffer, more: Text)
    requires Stray(b.pending + more) && b.pending != []
    ensures InFramed(Told(Drain(b)), false) >= 1
    ensures Frames(b.pending).lines != [] ==> Counts(Drain(b).lines, false) >= 1
  {
    hide Drain, Counts, Count, Frames;
    assert (b.pending + more)[0] == b.pending[0];
    DrainCounts(b);
  }

  /** Of what is to come nothing is gained; and if no character is missing in the end, the LF of a
      CR that was lost is among what is delivered. */
  lemma {:induction false} LossShows(b: Buffer, input: seq<Text>)
    requires Fit(b, input) && Placed(b, input)
    ensures Shows(b, input)
    decreases input
  {
    hide Drain, Frames, Clean, Append, Ditch, Loses, Count, Counts, Fit, Lossless, Deliver;
    var d, more := Drain(b), Stream(input);
    var s := b.pending + more;
    DrainCounts(b);
    CountJoins(b.pending, more, true);
    if input == [] {
      assert s == b.pending;
      DeliverEnds(b);
      LosslessEnds(b);
      if Stray(s) { StrayFeeds(b, more); }
    } else {
      var c := Append(Ditch(d.after), input[0]);
      FitFirst(b, input);
      DeliverFirst(b, input, true);
      DeliverFirst(b, input, false);
      if Loses(d.after) {
        MoreComes(input);
        LostBytes(b, more);
        DitchedStart(d.after, input[0]);
        LossShows(c, input[1..]);
      } else {
        DitchNothing(d.after, input[0]);
        Regroup(d.after.pending, input[0], Stream(input[1..]));
        CountJoins(d.after.pending, more, true);
        if Clean(s) {
          CleanNotStray(s);
          CleanGoesOn(b, more);
          LossShows(c, input[1..]);
        } else {
          StrayGoesOn(b, more);
          StrayKept(b, input[0]);
          LossShows(c, input[1..]);
          if b.pending != [] { StrayFeeds(b, more); }
        }
      }
    }
  }

  lemma CleanNotStray(s: Text)
    requires Clean(s)
    ensures !Stray(s)
  {
    if s != [] { assert CleanAt(s, 0); }
  }

  lemma LosslessEnds(b: Buffer)
    ensures Lossless(b, [])
  {
  }

  lemma MoreComes(input: seq<Text>)
    requires input != [] && input[0] != []
    ensures Stream(input) == input[0] + Stream(input[1..]) && Stream(input) != []
  {
  }

  lemma StrayKept(b: Buffer, chunk: Text)
    requires b.off == 0
    ensures Append(Ditch(b), chunk).off == 0
  {
  }

  /** On a clean stream whose prompts stand alone, the lines that are delivered and the unfinished
      end are those of the stream exactly when no read loses anything. */
  lemma DeliveredExactly(b: Buffer, input: seq<Text>)
    requires Fit(b, input) && Clean(b.pending + Stream(input)) && PromptsAlone(b.pending + Stream(input))
    ensures Framed(Deliver(b, input).lines, Deliver(b, input).after.pending) == Frames(b.pending + Stream(input)) <==> Lossless(b, input)
  {
    hide Drain, Frames, Clean, Fit, Lossless, Deliver, PromptsAlone, InFramed;
    var s := b.pending + Stream(input);
    if Lossless(b, input) {
      DeliverIsFrames(b, input);
    } else {
      LossShows(b, input);
      FramesCount(s);
      FramesClean(s);
    }
  }

  // ---------------------------------------------------- two losses that do not show

  /** n ends of line without a line */
  function Blanks(n: nat): (s: Text)
    ensures |s| == 2 * n
  {
    if n == 0 then [] else EOL + Blanks(n - 1)
  }

  const EOL: Text := "\r\n"

  lemma EolInFront(more: Text)
    ensures SkipEols(EOL + more) == SkipEols(more) && Frames(EOL + more) == Frames(more)
  {
    hide FindEol;
    assert EolAt(EOL + more, 0) && (EOL + more)[2..] == more;
  }

  lemma {:induction false} BlanksSkip(n: nat, more: Text)
    ensures SkipEols(Blanks(n) + more) == SkipEols(more) && Frames(Blanks(n) + more) == Frames(more)
  {
    hide EOL, SkipEols, Frames;
    if n == 0 {
      assert Blanks(n) + more == more;
    } else {
      BlanksSkip(n - 1, more);
      EolInFront(Blanks(n - 1) + more);
      Regroup(EOL, Blanks(n - 1), more);
    }
  }

  lemma DrainNothing(b: Buffer, s: Text)
    requires SkipEols(b.pending) == s && |s| < 2 && |b.pending| >= |s|
    ensures Drain(b) == Delivered([], Buffer(b.off + |b.pending| - |s|, s))
  {
    hide SkipEols;
  }

  lemma DrainSkip(off: nat, more: Text)
    ensures Drain(Buffer(off, EOL + more)) == Drain(Buffer(off + 2, more))
  {
    hide SkipEols, FindEol, EOL;
    EolInFront(more);
    TrySkip(off, more);
  }

  lemma TrySkip(off: nat, more: Text)
    ensures Try(Buffer(off, EOL + more)) == Try(Buffer(off + 2, more)) && |EOL| == 2
  {
    hide SkipEols, FindEol;
    EolInFront(more);
  }

  lemma DrainLine(off: nat, line: Text, more: Text, d: Delivered)
    requires line != [] && more != [] && forall k :: 0 <= k < |line| ==> line[k] != '\r'
    requires Drain(Buffer(off + |line| + 2, more)) == d
    ensures Drain(Buffer(off, line + EOL + more)) == Delivered([line] + d.lines, d.after)
  {
    hide Try;
    Take(off, line, more);
  }

  lemma ReturnStays()
    ensures SkipEols("\r") == "\r" && Frames(EOL + EOL) == Framed([], [])
  {
    EolInFront(EOL);
    EolInFront([]);
    assert EOL + [] == EOL;
    FramesShort([]);
  }

  lemma OneRead(b: Buffer, first: Text, rest: seq<Text>, lines: seq<Text>, after: Buffer)
    requires Drain(b) == Delivered(lines, after)
    ensures var c, input := Append(Ditch(after), first), [first] + rest;
      && Deliver(b, input) == Delivered(lines + Deliver(c, rest).lines, Deliver(c, rest).after)
      && (Fit(b, input) <==> first != [] && End(c) <= MAX_AT_RESPONSE && Fit(c, rest))
      && (Lossless(b, input) <==> !Loses(after) && Lossless(c, rest))
  {
    hide Drain, Append, Ditch, Loses;
    assert ([first] + rest)[1..] == rest;
  }

  /** A line that is one LF */
  const FEED: Text := "\n"

  function Second(): Text { EOL + (FEED + EOL + (Blanks(4093) + "\r")) }

  function Third(): Text { FEED + EOL }

  lemma FirstDrains(line: Text)
    requires |line| == MAX_AT_RESPONSE - 3 && forall k :: 0 <= k < |line| ==> line[k] != '\r'
    ensures Drain(Buffer(0, line + EOL + FEED)) == Delivered([line], Buffer(MAX_AT_RESPONSE - 1, FEED))
  {
    DrainTake(0, line, FEED);
    hide Drain;
  }

  lemma BlanksDrain(n: nat, off: nat)
    ensures Drain(Buffer(off, Blanks(n) + "\r")) == Delivered([], Buffer(off + 2 * n, "\r"))
  {
    hide Drain, SkipEols, Blanks, Frames;
    BlanksSkip(n, "\r");
    ReturnStays();
    DrainNothing(Buffer(off, Blanks(n) + "\r"), "\r");
  }

  lemma SecondLength()
    ensures |Second()| == MAX_AT_RESPONSE && |FEED| == 1 && |Blanks(4093) + "\r"| > 0
  {
    hide Blanks;
  }

  lemma SecondDrains()
    ensures Drain(Buffer(0, Second())) == Delivered([FEED], Buffer(MAX_AT_RESPONSE - 1, "\r")) && |Second()| == MAX_AT_RESPONSE
  {
    hide Drain, Blanks, EOL, FEED;
    var w := Blanks(4093) + "\r";
    SecondLength();
    LinesEnd();
    BlanksDrain(4093, 5);
    DrainLine(2, FEED, w, Drain(Buffer(5, w)));
    DrainSkip(0, FEED + EOL + w);
    assert [FEED] + [] == [FEED];
  }

  lemma ThirdDrains()
    ensures Drain(Buffer(0, Third())) == Delivered([FEED], EMPTY)
  {
    DrainTake(0, FEED, []);
    assert FEED + "\r\n" + [] == Third();
    hide Drain;
  }

  lemma LineFrames(line: Text, more: Text)
    requires line != [] && forall k :: 0 <= k < |line| ==> line[k] != '\r'
    ensures Frames(line + EOL + more) == Framed([line] + Frames(more).lines, Frames(more).rest)
  {
    hide Frames, Try;
    Take(0, line, more);
  }

  lemma Reorder(l: Text, e: Text, f: Text, b: Text, r: Text)
    requires r + f == e
    ensures l + e + f + (e + (f + e + (b + r)) + (f + e)) == l + e + (f + e + (f + e + (b + (e + e))))
  {
    var rest := f + e + (b + (e + e));
    Regroup(e, f + e + (b + r), f + e);
    Regroup(f + e, b + r, f + e);
    Regroup(b, r, f + e);
    Regroup(r, f, e);
    Regroup(l + e, f, e + rest);
    Regroup(f, e, rest);
  }

  lemma LinesEnd()
    ensures "\r" + FEED == EOL && FEED != [] && forall k :: 0 <= k < |FEED| ==> FEED[k] != '\r'
  {
  }

  function Tail(): Text { FEED + EOL + (FEED + EOL + (Blanks(4093) + (EOL + EOL))) }

  lemma WholeText(line: Text)
    ensures line + EOL + FEED + (Second() + Third()) == line + EOL + Tail()
  {
    LinesEnd();
    Reorder(line, EOL, FEED, Blanks(4093), "\r");
    hide Blanks, EOL, FEED;
  }

  lemma TailFrames()
    ensures Frames(Tail()) == Framed([FEED, FEED], [])
  {
    hide Frames, Blanks, EOL, FEED;
    var rest := Blanks(4093) + (EOL + EOL);
    BlanksSkip(4093, EOL + EOL);
    ReturnStays();
    LinesEnd();
    LineFrames(FEED, rest);
    LineFrames(FEED, FEED + EOL + rest);
    assert [FEED] + ([FEED] + []) == [FEED, FEED];
  }

  lemma WholeFrames(line: Text)
    requires line != [] && forall k :: 0 <= k < |line| ==> line[k] != '\r'
    ensures Frames(line + EOL + FEED + (Second() + Third())) == Framed([line, FEED, FEED], [])
  {
    hide Frames, Blanks, EOL, FEED, Second, Third, Tail;
    WholeText(line);
    TailFrames();
    LineFrames(line, Tail());
    assert [line] + [FEED, FEED] == [line, FEED, FEED];
  }

  /** A stream in which two bytes are lost although the lines come out as they are: a line of one
      LF is lost, and later the CR of an end of line that would have been skipped, so that its LF
      becomes the missing line. */
  lemma LossUnseen(line: Text)
    requires |line| == MAX_AT_RESPONSE - 3 && forall k :: 0 <= k < |line| ==> line[k] != '\r'
    ensures var first := line + EOL + FEED; var input := [first] + ([Second()] + ([Third()] + []));
      && Fit(EMPTY, input) && !Lossless(EMPTY, input) && Stream(input) == first + (Second() + Third())
      && Frames(Stream(input)) == Framed([line, FEED, FEED], [])
      && Deliver(EMPTY, input) == Delivered([line, FEED, FEED], EMPTY)
  {
    hide Drain, Deliver, Frames, Fit, Lossless, SkipEols, Second, Stream, Third;
    var first := line + EOL + FEED;
    FirstRead(first);
    FirstDrains(line);
    SecondDrains();
    ThirdDrains();
    assert |Third()| == 3 by { ThirdLength(); }
    OneRead(EMPTY, first, [Second()] + ([Third()] + []), [], EMPTY);
    OneRead(Buffer(0, first), Second(), [Third()] + [], [line], Buffer(MAX_AT_RESPONSE - 1, FEED));
    OneRead(Buffer(0, Second()), Third(), [], [FEED], Buffer(MAX_AT_RESPONSE - 1, "\r"));
    assert [] + Second() == Second() && [] + Third() == Third();
    DeliverEnds(Buffer(0, Third()));
    FitEnds(Buffer(0, Third()));
    ThreeReads(first, Second(), Third());
    WholeFrames(line);
    assert [] + ([line] + ([FEED] + [FEED])) == [line, FEED, FEED];
  }

  lemma ThirdLength()
    ensures |Third()| == 3
  {
  }

  lemma FitEnds(b: Buffer)
    ensures Fit(b, []) && Lossless(b, [])
  {
  }

  lemma ThreeReads(a: Text, b: Text, c: Text)
    ensures Stream([a] + ([b] + ([c] + []))) == a + (b + c)
  {
    hide Deliver, Drain;
    DeliverMore(EMPTY, a, [b] + ([c] + []));
    DeliverMore(EMPTY, b, [c] + []);
    DeliverMore(EMPTY, c, []);
    DeliverEnds(EMPTY);
    assert c + [] == c;
  }
}
