/** The reader thread: readline on its buffer in memory, and the loop that hands lines on. */
module AtReader {
  import opened AtText
  import opened Wrappers

  import opened AtFrames

  const NUL: char := '\0'

  /** What a C string that starts with s and goes on with a NUL reads as */
  function CText(s: Text): Text {
    if s == [] || s[0] == NUL then [] else [s[0]] + CText(s[1..])
  }

  lemma CTextIs(s: Text, n: nat)
    requires n <= |s| && (forall k :: 0 <= k < n ==> s[k] != NUL) && (n < |s| ==> s[n] == NUL)
    ensures CText(s) == s[..n]
  {
    if n > 0 {
      assert s[..n] == [s[0]] + s[1..][..n - 1];
      CTextIs(s[1..], n - 1);
    }
  }

  // --------------------------------------------------------- one line at a time

  datatype Next = Next(line: Option<Text>, after: Buffer)

  /** readline where its reads bring just these pieces; no line means that it wants to read on. */
  function NextLine(b: Buffer, input: seq<Text>): Next
    decreases input
  {
    var t := Try(b);
    if t.line.Some? then Next(t.line, Settle(t.after))
    else if input == [] then Next(None, Ditch(t.after))
    else NextLine(Append(Ditch(t.after), input[0]), input[1..])
  }

  /** It made every one of the reads before it had a line. */
  predicate AllRead(b: Buffer, input: seq<Text>)
    decreases input
  {
    input != [] ==>
      && Try(b).line.None? && input[0] != []
      && End(Append(Ditch(Try(b).after), input[0])) <= MAX_AT_RESPONSE
      && AllRead(Append(Ditch(Try(b).after), input[0]), input[1..])
  }

  lemma {:induction false} NextLineMore(b: Buffer, input: seq<Text>, chunk: Text)
    requires AllRead(b, input) && NextLine(b, input).line.None? && chunk != []
    requires End(NextLine(b, input).after) + |chunk| <= MAX_AT_RESPONSE
    ensures AllRead(b, input + [chunk])
    ensures NextLine(b, input + [chunk]) == NextLine(Append(NextLine(b, input).after, chunk), [])
    decreases input
  {
    hide Try, Ditch, Append;
    if input == [] {
      assert input + [chunk] == [chunk] && [chunk][1..] == [];
      assert End(Append(Ditch(Try(b).after), chunk)) <= MAX_AT_RESPONSE by { EndOfAppend(Ditch(Try(b).after), chunk); }
    } else {
      assert (input + [chunk])[1..] == input[1..] + [chunk];
      NextLineMore(Append(Ditch(Try(b).after), input[0]), input[1..], chunk);
    }
  }

  lemma EndOfAppend(b: Buffer, chunk: Text)
    ensures End(Append(b, chunk)) == End(b) + |chunk| && |Append(b, chunk).pending| == |b.pending| + |chunk|
  {
  }

  /** What is delivered of all reads is the next line and what is delivered after it. */
  lemma {:induction false} DeliverNext(b: Buffer, input: seq<Text>, more: seq<Text>)
    requires AllRead(b, input) && NextLine(b, input).line.Some?
    ensures var n := NextLine(b, input); var d := Deliver(n.after, more);
      Deliver(b, input + more) == Delivered([n.line.value] + d.lines, d.after)
    decreases input
  {
    hide Try, Ditch, Append, Settle;
    if input == [] {
      assert [] + more == more;
      DeliverFirst(b, more);
    } else {
      assert (input + more)[1..] == input[1..] + more;
      var c := Append(Ditch(Try(b).after), input[0]);
      DeliverNext(c, input[1..], more);
      DrainNothing(b);
      assert Deliver(b, input + more) == Deliver(c, input[1..] + more) by { NothingMore(Deliver(c, input[1..] + more).lines); }
    }
  }

  lemma NothingMore(lines: seq<Text>)
    ensures [] + lines == lines
  {
  }

  lemma DrainNothing(b: Buffer)
    requires Try(b).line.None?
    ensures Drain(b) == Delivered([], Try(b).after)
  {
  }

  lemma DeliverFirst(b: Buffer, more: seq<Text>)
    requires Try(b).line.Some?
    ensures var t := Try(b); var d := Deliver(Settle(t.after), more);
      Deliver(b, more) == Delivered([t.line.value] + d.lines, d.after)
  {
    hide Try, Settle;
    var t := Try(b);
    var d := Drain(Settle(t.after));
    assert Drain(b) == Delivered([t.line.value] + d.lines, d.after);
    if more != [] {
      var e := Deliver(Append(Ditch(d.after), more[0]), more[1..]);
      Grow(t.line.value, d.lines, e.lines);
    }
  }

  /** Where readline comes to the end of the input, nothing is left to deliver. */
  lemma {:induction false} DeliverNothing(b: Buffer, input: seq<Text>)
    requires AllRead(b, input) && NextLine(b, input).line.None?
    ensures Deliver(b, input).lines == []
    ensures Ditch(Deliver(b, input).after) == NextLine(b, input).after
    decreases input
  {
    hide Try, Ditch, Append;
    DrainNothing(b);
    if input != [] {
      DeliverNothing(Append(Ditch(Try(b).after), input[0]), input[1..]);
      NothingMore(Deliver(Append(Ditch(Try(b).after), input[0]), input[1..]).lines);
    }
  }

  // ----------------------------------------------------------- lines in pairs

  const SMS_UNSOLICITEDS: seq<Text> := [
    "+CMT:", "+CDS:", "+CBM:", "+CDSI:", "^HCMT:", "^HCDS:", "^HCMGR:", "+CMGR:", "+CMGL:"
  ]

  predicate SmsUnsolicited(line: Text) {
    exists i :: 0 <= i < |SMS_UNSOLICITEDS| && SMS_UNSOLICITEDS[i] <= line
  }

  /** The notifications whose next line is the message */
  lemma SmsUnsolicitedAre(line: Text)
    ensures SmsUnsolicited(line) <==>
      || "+CMT:" <= line || "+CDS:" <= line || "+CBM:" <= line || "+CDSI:" <= line || "^HCMT:" <= line
      || "^HCDS:" <= line || "^HCMGR:" <= line || "+CMGR:" <= line || "+CMGL:" <= line
  {
    var p := SMS_UNSOLICITEDS;
    assert p[0] == "+CMT:" && p[1] == "+CDS:" && p[2] == "+CBM:" && p[3] == "+CDSI:" && p[4] == "^HCMT:";
    assert p[5] == "^HCDS:" && p[6] == "^HCMGR:" && p[7] == "+CMGR:" && p[8] == "+CMGL:";
  }

  /** A line for processLine, or a message of two lines for the unsolicited handler */
  datatype Handed = Processed(line: Text) | Message(header: Text, body: Text)

  /** A header takes the line after it, whatever that is; one without such a line is dropped. */
  function Pairing(lines: seq<Text>): seq<Handed>
    decreases lines
  {
    if lines == [] then []
    else if !SmsUnsolicited(CText(lines[0])) then [Processed(CText(lines[0]))] + Pairing(lines[1..])
    else if |lines| == 1 then []
    else [Message(CText(lines[0]), CText(lines[1]))] + Pairing(lines[2..])
  }

  /** The lines that are handed on, one after the other */
  function HandedLines(handed: seq<Handed>): seq<Text> {
    if handed == [] then []
    else
      (match handed[0] case Processed(line) => [line] case Message(header, body) => [header, body]) + HandedLines(handed[1..])
  }

  function CTexts(lines: seq<Text>): (r: seq<Text>)
    ensures |r| == |lines|
  {
    seq(|lines|, i requires 0 <= i < |lines| => CText(lines[i]))
  }

  /** Every line is handed on, in order, but for a header at the very end; lines that announce a
      message are handed on with the next one, and no others are. */
  lemma {:induction false} PairingIs(lines: seq<Text>)
    ensures var handed := Pairing(lines);
      && (forall k :: 0 <= k < |handed| && handed[k].Message? ==> SmsUnsolicited(handed[k].header))
      && (forall k :: 0 <= k < |handed| && handed[k].Processed? ==> !SmsUnsolicited(handed[k].line))
      && (|| HandedLines(handed) == CTexts(lines)
          || (lines != [] && HandedLines(handed) == CTexts(lines)[..|lines| - 1] && SmsUnsolicited(CText(lines[|lines| - 1]))))
    decreases lines
  {
    hide SmsUnsolicited, CText;
    if lines == [] {
    } else if !SmsUnsolicited(CText(lines[0])) {
      PairingIs(lines[1..]);
      CTextsFirst(lines, 1);
      OneHanded(Processed(CText(lines[0])), Pairing(lines[1..]));
    } else if |lines| > 1 {
      PairingIs(lines[2..]);
      CTextsFirst(lines, 2);
      OneHanded(Message(CText(lines[0]), CText(lines[1])), Pairing(lines[2..]));
    }
  }

  lemma OneHanded(h: Handed, rest: seq<Handed>)
    ensures HandedLines([h] + rest) == (match h case Processed(line) => [line] case Message(header, body) => [header, body]) + HandedLines(rest)
  {
    assert ([h] + rest)[1..] == rest;
  }

  lemma CTextsFirst(lines: seq<Text>, n: nat)
    requires n <= |lines|
    ensures CTexts(lines) == CTexts(lines[..n]) + CTexts(lines[n..])
    ensures n == 1 ==> CTexts(lines[..n]) == [CText(lines[0])]
    ensures n == 2 ==> CTexts(lines[..n]) == [CText(lines[0]), CText(lines[1])]
  {
    hide CText;
  }

  /** What the lines so far come to, whatever follows */
  ghost predicate Paired(lines: seq<Text>, handed: seq<Handed>) {
    forall tail :: Pairing(lines + tail) == handed + Pairing(tail)
  }

  lemma PairedStarts()
    ensures Paired([], [])
  {
    forall tail
      ensures Pairing([] + tail) == [] + Pairing(tail)
    {
      assert [] + tail == tail && [] + Pairing(tail) == Pairing(tail);
    }
  }

  lemma PairedOne(lines: seq<Text>, handed: seq<Handed>, line: Text)
    requires Paired(lines, handed) && !SmsUnsolicited(CText(line))
    ensures Paired(lines + [line], handed + [Processed(CText(line))])
  {
    hide SmsUnsolicited, CText;
    forall tail
      ensures Pairing(lines + [line] + tail) == handed + [Processed(CText(line))] + Pairing(tail)
    {
      assert lines + [line] + tail == lines + ([line] + tail);
      assert ([line] + tail)[1..] == tail;
      assert handed + [Processed(CText(line))] + Pairing(tail) == handed + ([Processed(CText(line))] + Pairing(tail));
    }
  }

  lemma PairedTwo(lines: seq<Text>, handed: seq<Handed>, line1: Text, line2: Text)
    requires Paired(lines, handed) && SmsUnsolicited(CText(line1))
    ensures Paired(lines + [line1] + [line2], handed + [Message(CText(line1), CText(line2))])
  {
    hide SmsUnsolicited, CText;
    forall tail
      ensures Pairing(lines + [line1] + [line2] + tail) == handed + [Message(CText(line1), CText(line2))] + Pairing(tail)
    {
      assert lines + [line1] + [line2] + tail == lines + ([line1, line2] + tail);
      assert ([line1, line2] + tail)[2..] == tail;
      assert handed + [Message(CText(line1), CText(line2))] + Pairing(tail)
          == handed + ([Message(CText(line1), CText(line2))] + Pairing(tail));
    }
  }

  lemma PairedEnd(lines: seq<Text>, handed: seq<Handed>)
    requires Paired(lines, handed)
    ensures Pairing(lines) == handed
  {
    assert lines + [] == lines && handed + Pairing([]) == handed;
  }

  lemma PairedAlone(lines: seq<Text>, handed: seq<Handed>, line: Text)
    requires Paired(lines, handed) && SmsUnsolicited(CText(line))
    ensures Pairing(lines + [line]) == handed
  {
    hide SmsUnsolicited, CText;
    assert Pairing([line]) == [];
    assert Pairing(lines + [line]) == handed + Pairing([line]);
  }

  /** The reads so far deliver the lines so far, and c is where it goes on, whatever follows. */
  ghost predicate Served(b: Buffer, got: seq<Text>, lines: seq<Text>, c: Buffer) {
    forall more ::
      && Deliver(b, got + more) == Delivered(lines + Deliver(c, more).lines, Deliver(c, more).after)
      && (Fit(c, more) ==> Fit(b, got + more))
  }

  lemma ServedStarts(b: Buffer)
    ensures Served(b, [], [], b)
  {
    hide Deliver, Fit;
    forall more
      ensures Deliver(b, [] + more) == Delivered([] + Deliver(b, more).lines, Deliver(b, more).after)
      ensures Fit(b, more) ==> Fit(b, [] + more)
    {
      assert [] + more == more;
      NothingMore(Deliver(b, more).lines);
    }
  }

  lemma ServedMore(b: Buffer, got: seq<Text>, lines: seq<Text>, c: Buffer, input: seq<Text>)
    requires Served(b, got, lines, c) && AllRead(c, input) && NextLine(c, input).line.Some?
    ensures Served(b, got + input, lines + [NextLine(c, input).line.value], NextLine(c, input).after)
  {
    hide Deliver, Fit, NextLine, AllRead;
    var n := NextLine(c, input);
    forall more
      ensures Deliver(b, got + input + more) == Delivered(lines + [n.line.value] + Deliver(n.after, more).lines, Deliver(n.after, more).after)
      ensures Fit(n.after, more) ==> Fit(b, got + input + more)
    {
      assert got + input + more == got + (input + more);
      DeliverNext(c, input, more);
      if Fit(n.after, more) {
        FitNext(c, input, more);
      }
      assert lines + ([n.line.value] + Deliver(n.after, more).lines) == lines + [n.line.value] + Deliver(n.after, more).lines;
    }
  }

  lemma ServedLast(b: Buffer, got: seq<Text>, lines: seq<Text>, c: Buffer, input: seq<Text>)
    requires Served(b, got, lines, c) && AllRead(c, input) && NextLine(c, input).line.None?
    ensures Deliver(b, got + input).lines == lines && Fit(b, got + input)
  {
    hide Deliver, Fit, NextLine, AllRead;
    DeliverNothing(c, input);
    FitNothing(c, input);
    assert lines + [] == lines;
  }

  lemma {:induction false} FitNext(b: Buffer, input: seq<Text>, more: seq<Text>)
    requires AllRead(b, input) && NextLine(b, input).line.Some? && Fit(NextLine(b, input).after, more)
    ensures Fit(b, input + more)
    decreases input
  {
    hide Try, Ditch, Append, Settle;
    if input == [] {
      assert input + more == more;
      FitFirst(b, more);
    } else {
      assert (input + more)[1..] == input[1..] + more;
      DrainNothing(b);
      FitNext(Append(Ditch(Try(b).after), input[0]), input[1..], more);
    }
  }

  lemma FitFirst(b: Buffer, more: seq<Text>)
    requires Try(b).line.Some? && Fit(Settle(Try(b).after), more)
    ensures Fit(b, more)
  {
    hide Try, Settle, Ditch, Append;
  }

  lemma {:induction false} FitNothing(b: Buffer, input: seq<Text>)
    requires AllRead(b, input) && NextLine(b, input).line.None?
    ensures Fit(b, input)
    decreases input
  {
    hide Try, Ditch, Append;
    DrainNothing(b);
    if input != [] {
      FitNothing(Append(Ditch(Try(b).after), input[0]), input[1..]);
    }
  }

  // ------------------------------------------------------------- in memory

  lemma TrySkipped(b: Buffer, c: Buffer)
    requires c.pending == SkipEols(b.pending) && End(c) == End(b)
    ensures Try(b) == Try(c) && !EolAt(c.pending, 0)
  {
    hide *;
    SkipAgain(b.pending);
    TryFrom(b, c.pending);
    TryFrom(c, c.pending);
    NoEol(b.pending);
    assert End(c) == End(b);
  }

  lemma NoEol(s: Text)
    ensures !EolAt(SkipEols(s), 0)
  {
  }

  /** What is tried depends on the end of the buffer and on what follows the leading CR LFs. */
  lemma TryFrom(b: Buffer, s: Text)
    requires s == SkipEols(b.pending)
    ensures Try(b) ==
      if |s| < 2 then Tried(None, Buffer(End(b) - |s|, s))
      else if s == PROMPT then Tried(Some(s), Buffer(End(b) - |s| + 2, []))
      else if FindEol(s, 0) == |s| then Tried(None, Buffer(0, s))
      else Tried(Some(s[..FindEol(s, 0)]), Buffer(End(b) - |s| + FindEol(s, 0) + 2, s[FindEol(s, 0) + 2..]))
  {
    hide SkipEols, FindEol, EolAt, PROMPT;
  }

  lemma SkipAgain(s: Text)
    ensures SkipEols(SkipEols(s)) == SkipEols(s)
  {
  }

  /** Overwriting a CR LF leaves what is before and behind it. */
  lemma CutOut(a: Text, a': Text, cur: nat, i: nat, end: nat)
    requires cur <= i && i + 2 <= end <= |a| == |a'|
    requires forall k :: 0 <= k < |a| && k != i && k != i + 1 ==> a'[k] == a[k]
    ensures a'[cur..i] == a[cur..end][..i - cur] && a'[i + 2..end] == a[cur..end][i - cur + 2..]
  {
  }

  lemma SkipOne(a: Text, cur: nat, end: nat)
    requires cur + 2 <= end <= |a| && a[cur] == '\r' && a[cur + 1] == '\n'
    ensures SkipEols(a[cur + 2..end]) == SkipEols(a[cur..end])
  {
    assert a[cur..end][2..] == a[cur + 2..end];
  }

  lemma SkipDone(a: Text, cur: nat, end: nat)
    requires cur <= end <= |a| && !(end >= cur + 2 && a[cur] == '\r' && a[cur + 1] == '\n')
    ensures SkipEols(a[cur..end]) == a[cur..end]
  {
  }

  lemma TryPartial(b: Buffer)
    requires !EolAt(b.pending, 0)
    requires |b.pending| < 2 || (b.pending != PROMPT && FindEol(b.pending, 0) == |b.pending|)
    ensures Try(b) == Tried(None, if |b.pending| < 2 then b else Buffer(0, b.pending))
  {
  }

  lemma TryShrinks(b: Buffer)
    ensures |Try(b).after.pending| + (if Try(b).line.Some? then 1 else 0) <= |b.pending|
  {
  }

  class Channel {
    const buf: array<char>
    var cur: nat
    var end: nat
    /** What the modem sends, in the pieces it arrives in */
    var input: seq<Text>

    constructor (input: seq<Text>)
      ensures Valid() && Abs() == EMPTY && this.input == input && fresh(buf)
    {
      buf := new char[MAX_AT_RESPONSE + 1];
      cur, end := 0, 0;
      this.input := input;
    }

    predicate Valid()
      reads this, buf
    {
      buf.Length == MAX_AT_RESPONSE + 1 && cur <= end <= MAX_AT_RESPONSE
    }

    function Abs(): Buffer
      requires Valid()
      reads this, buf
    {
      Buffer(cur, buf[cur..end])
    }

    /** findNextEOL: where the line after the next one starts, or -1 */
    method FindNextEol() returns (r: int)
      requires Valid() && end - cur >= 2
      modifies buf
      ensures var s := old(buf[cur..end]);
        if s == PROMPT then r == end && buf[end] == NUL && buf[cur..end] == s
        else if FindEol(s, 0) == |s| then r == -1 && buf[..] == old(buf[..])
        else r == cur + FindEol(s, 0) + 2 && buf[r - 2] == NUL
             && buf[cur..r - 2] == s[..FindEol(s, 0)] && buf[r..end] == s[FindEol(s, 0) + 2..]
    {
      ghost var s := buf[cur..end];
      if buf[cur] == '>' && buf[cur + 1] == ' ' && cur + 2 == end {
        buf[end] := NUL;
        assert s == PROMPT;
        return end;
      }
      assert s[0] == buf[cur] && s[1] == buf[cur + 1];
      var i := cur;
      while i + 1 < end
        invariant cur <= i < end && buf[..] == old(buf[..])
        invariant forall k :: 0 <= k < i - cur ==> !EolAt(s, k)
      {
        assert s[i - cur] == buf[i] && s[i + 1 - cur] == buf[i + 1];
        if buf[i] == '\r' && buf[i + 1] == '\n' {
          EolUnique(s, 0, i - cur);
          buf[i], buf[i + 1] := NUL, NUL;
          CutOut(old(buf[..]), buf[..], cur, i, end);
          return i + 2;
        }
        i := i + 1;
      }
      EolUnique(s, 0, |s|);
      r := -1;
    }

    /** The loop over leading CR LFs */
    method SkipLeading()
      requires Valid()
      modifies this`cur
      ensures Valid() && buf[cur..end] == SkipEols(old(buf[cur..end]))
    {
      hide SkipEols, EolAt;
      ghost var a := buf[..];
      ghost var s := a[cur..end];
      while end >= cur + 2 && buf[cur] == '\r' && buf[cur + 1] == '\n'
        invariant Valid() && old(cur) <= cur <= end <= |a| && SkipEols(a[cur..end]) == SkipEols(s)
        decreases end - cur
      {
        SkipOne(a, cur, end);
        cur := cur + 2;
      }
      SkipDone(a, cur, end);
      assert buf[cur..end] == a[cur..end];
    }

    /** tryALine: where the line after the next one starts, or -1; the next one starts at cur and
        has a NUL behind it. */
    method TryALine() returns (eol: int)
      requires Valid()
      modifies this`cur, this`end, buf
      ensures Valid() && (eol == -1 || cur <= eol <= end)
      ensures if eol == -1 then Try(old(Abs())) == Tried(None, Abs())
              else Try(old(Abs())).line.Some? && At(eol, Try(old(Abs())).line.value, Try(old(Abs())).after)
    {
      hide SkipEols, FindEol, Try;
      ghost var b := Abs();
      SkipLeading();
      TrySkipped(b, Abs());
      eol := -1;
      if end >= cur + 2 {
        ghost var s := buf[cur..end];
        eol := FindNextEol();
        if eol == -1 {
          TryPartial(Buffer(cur, s));
          MoveUp();
        } else {
          FoundLine(s, eol);
        }
      } else {
        TryPartial(Abs());
      }
    }

    /** The line stands at cur with a NUL behind it, and after is what starts at eol. */
    predicate At(eol: int, line: Text, after: Buffer)
      reads this, buf
    {
      && Valid() && cur <= eol <= end && Buffer(eol, buf[eol..end]) == after
      && cur + |line| <= eol && buf[cur..cur + |line|] == line && buf[cur + |line|] == NUL
    }

    /** What FindNextEol found, as a line with a NUL behind it */
    lemma FoundLine(s: Text, eol: nat)
      requires Valid() && |s| == end - cur >= 2 && !EolAt(s, 0)
      requires if s == PROMPT then eol == end && buf[end] == NUL && buf[cur..end] == s
               else FindEol(s, 0) < |s| && eol == cur + FindEol(s, 0) + 2 && buf[eol - 2] == NUL
                    && buf[cur..eol - 2] == s[..FindEol(s, 0)] && buf[eol..end] == s[FindEol(s, 0) + 2..]
      ensures Try(Buffer(cur, s)).line.Some? && At(eol, Try(Buffer(cur, s)).line.value, Try(Buffer(cur, s)).after)
    {
    }

    /** memmove of a partial line to the front */
    method MoveUp()
      requires Valid()
      modifies this`cur, this`end, buf
      ensures Valid() && Abs() == Buffer(0, old(buf[cur..end]))
    {
      var len := end - cur;
      forall k | 0 <= k < len {
        buf[k] := buf[cur + k];
      }
      end := len;
      cur := 0;
      assert buf[0..len] == old(buf[cur..end]);
    }

    /** read: some bytes of what has arrived, as many as there is room for; none at the end */
    method ReadSome() returns (count: nat, ghost chunk: Text)
      requires Valid() && end < MAX_AT_RESPONSE && forall k :: 0 <= k < |input| ==> input[k] != []
      modifies this`input, buf
      ensures Valid() && count == |chunk| && end + count <= MAX_AT_RESPONSE
      ensures buf[cur..end] == old(buf[cur..end]) && buf[end..end + count] == chunk
      ensures chunk + Stream(input) == old(Stream(input)) && forall k :: 0 <= k < |input| ==> input[k] != []
      ensures (count == 0 <==> old(input) == []) && (count == 0 ==> input == []) && TotalSize(input) == old(TotalSize(input)) - count
    {
      if input == [] {
        return 0, [];
      }
      var piece := input[0];
      var room := MAX_AT_RESPONSE - end;
      count := if |piece| <= room then |piece| else room;
      chunk := piece[..count];
      forall k | 0 <= k < count {
        buf[end + k] := piece[k];
      }
      assert buf[cur..end] == old(buf[cur..end]);
      assert forall k :: 0 <= k < count ==> buf[end + k] == chunk[k];
      assert buf[end..end + count] == chunk;
      ghost var was := input;
      if count == |piece| {
        assert piece[..count] == piece;
        input := input[1..];
      } else {
        input := [piece[count..]] + input[1..];
        assert input[1..] == was[1..];
        assert piece[..count] + (piece[count..] + Stream(was[1..])) == piece + Stream(was[1..]);
      }
    }

    /** The reads of readline: a full buffer is thrown away first. */
    method Refill() returns (count: nat, ghost chunk: Text)
      requires Valid() && forall k :: 0 <= k < |input| ==> input[k] != []
      modifies this`cur, this`end, this`input, buf
      ensures Valid() && count == |chunk| && Abs() == Append(Ditch(old(Abs())), chunk)
      ensures chunk + Stream(input) == old(Stream(input)) && forall k :: 0 <= k < |input| ==> input[k] != []
      ensures TotalSize(input) == old(TotalSize(input)) - count && (count == 0 <==> old(input) == []) && (count == 0 ==> input == [])
    {
      hide Stream, TotalSize;
      if MAX_AT_RESPONSE - end == 0 {
        cur, end := 0, 0;
      }
      ghost var was := buf[cur..end];
      count, chunk := ReadSome();
      end := end + count;
      assert buf[cur..end] == was + chunk;
    }

    /** The C string at cur */
    method StringAt(ghost line: Text) returns (r: Text)
      requires Valid() && cur + |line| <= end && buf[cur..cur + |line|] == line && buf[cur + |line|] == NUL
      ensures r == CText(line)
    {
      var i := cur;
      while buf[i] != NUL
        invariant cur <= i <= cur + |line| && forall k :: cur <= k < i ==> buf[k] != NUL
        decreases cur + |line| - i
      {
        i := i + 1;
      }
      r := buf[cur..i];
      assert line[..i - cur] == r;
      assert forall k :: 0 <= k < i - cur ==> line[k] == buf[cur + k];
      assert i - cur < |line| ==> line[i - cur] == buf[i];
      CTextIs(line, i - cur);
    }

    /** readline */
    method ReadLine() returns (line: Option<Text>, ghost got: seq<Text>)
      requires Valid() && forall k :: 0 <= k < |input| ==> input[k] != []
      modifies this`cur, this`end, this`input, buf
      ensures Valid() && forall k :: 0 <= k < |input| ==> input[k] != []
      ensures Stream(got) + Stream(input) == old(Stream(input))
      ensures AllRead(old(Abs()), got)
      ensures var n := NextLine(old(Abs()), got);
        && Abs() == n.after
        && line == (if n.line.Some? then Some(CText(n.line.value)) else None)
        && (n.line.None? ==> input == [])
      ensures |Abs().pending| + TotalSize(input) <= old(|Abs().pending| + TotalSize(input)) - if line.Some? then 1 else 0
    {
      hide Try, Append, NextLine, AllRead, Stream, TotalSize, CText;
      got := [];
      ghost var b := Abs();
      ghost var last := b;
      NextLineStarts(b);
      TryShrinks(b);
      var eol := TryALine();
      while eol == -1
        invariant Valid() && forall k :: 0 <= k < |input| ==> input[k] != []
        invariant Stream(got) + Stream(input) == old(Stream(input))
        invariant AllRead(b, got) && NextLine(b, got) == NextLine(last, [])
        invariant if eol == -1 then Try(last) == Tried(None, Abs())
                  else Try(last).line.Some? && At(eol, Try(last).line.value, Try(last).after)
        invariant |last.pending| + TotalSize(input) <= old(|Abs().pending| + TotalSize(input))
        decreases TotalSize(input)
      {
        TryShrinks(last);
        NextLineStarts(last);
        var count, chunk := Refill();
        if count == 0 {
          assert Abs() == Ditch(Try(last).after) by { AppendNothing(Ditch(Try(last).after), chunk); }
          return None, got;
        }
        EndOfAppend(Ditch(Try(last).after), chunk);
        assert End(Abs()) <= MAX_AT_RESPONSE;
        NextLineMore(b, got, chunk);
        StreamMore(got, chunk, input);
        got := got + [chunk];
        last := Abs();
        eol := TryALine();
      }
      TryShrinks(last);
      NextLineStarts(last);
      var r := StringAt(Try(last).line.value);
      cur := eol;
      if cur == end {
        cur, end := 0, 0;
      }
      line := Some(r);
    }

    /** readline as one of many: what the reads so far deliver, line by line */
    method ServeLine(ghost b: Buffer, ghost got: seq<Text>, ghost lines: seq<Text>)
      returns (line: Option<Text>, ghost got': seq<Text>, ghost lines': seq<Text>)
      requires Valid() && (forall k :: 0 <= k < |input| ==> input[k] != []) && Served(b, got, lines, Abs())
      modifies this`cur, this`end, this`input, buf
      ensures Valid() && forall k :: 0 <= k < |input| ==> input[k] != []
      ensures Stream(got') + Stream(input) == Stream(got) + old(Stream(input))
      ensures line.Some? ==>
        && |lines'| > 0 && lines'[..|lines'| - 1] == lines && line.value == CText(lines'[|lines'| - 1])
        && Served(b, got', lines', Abs())
        && |Abs().pending| + TotalSize(input) < old(|Abs().pending| + TotalSize(input))
      ensures line.None? ==> lines' == lines && Deliver(b, got').lines == lines && Fit(b, got') && Stream(input) == []
    {
      hide NextLine, AllRead, Deliver, CText, Fit, Served, TotalSize, Stream;
      ghost var c := Abs();
      ghost var g;
      line, g := ReadLine();
      Regroup(Stream(got), Stream(g), Stream(input));
      StreamJoin(got, g);
      got', lines' := got + g, lines;
      if line.None? {
        ServedLast(b, got, lines, c, g);
        NextLineStarts(b);
      } else {
        ServedMore(b, got, lines, c, g);
        lines' := lines + [NextLine(c, g).line.value];
      }
    }

    /** readerLoop, up to onReaderClosed */
    method ReaderLoop() returns (handed: seq<Handed>, ghost lines: seq<Text>, ghost got: seq<Text>)
      requires Valid() && forall k :: 0 <= k < |input| ==> input[k] != []
      modifies this`cur, this`end, this`input, buf
      ensures Valid() && Stream(got) == old(Stream(input))
      ensures Fit(old(Abs()), got) && lines == Deliver(old(Abs()), got).lines
      ensures handed == Pairing(lines)
      ensures Lossless(old(Abs()), got) && PromptsAlone(old(Abs()).pending + Stream(got))
        ==> lines == Frames(old(Abs()).pending + Stream(got)).lines
    {
      hide Deliver, Stream, Pairing, CText, Fit, Served, Paired, TotalSize, SmsUnsolicited, Lossless, PromptsAlone, Frames;
      ghost var b := Abs();
      handed, lines, got := [], [], [];
      ServedStarts(b);
      PairedStarts();
      assert Stream(got) + Stream(input) == Stream(input) by { NextLineStarts(b); }
      while true
        invariant Valid() && forall k :: 0 <= k < |input| ==> input[k] != []
        invariant Stream(got) + Stream(input) == old(Stream(input))
        invariant Served(b, got, lines, Abs()) && Paired(lines, handed)
        decreases |Abs().pending| + TotalSize(input)
      {
        ghost var before := lines;
        var line;
        line, got, lines := ServeLine(b, got, lines);
        if line.None? {
          PairedEnd(lines, handed);
          break;
        }
        if SmsUnsolicited(line.value) {
          ghost var one := lines;
          var line2;
          line2, got, lines := ServeLine(b, got, lines);
          if line2.None? {
            PairedAlone(before, handed, one[|one| - 1]);
            assert lines == before + [one[|one| - 1]];
            break;
          }
          PairedTwo(before, handed, one[|one| - 1], lines[|lines| - 1]);
          assert lines == before + [one[|one| - 1]] + [lines[|lines| - 1]];
          handed := handed + [Message(line.value, line2.value)];
        } else {
          PairedOne(before, handed, lines[|lines| - 1]);
          assert lines == before + [lines[|lines| - 1]];
          handed := handed + [Processed(line.value)];
        }
      }
      assert Stream(got) + [] == Stream(got);
      if Lossless(b, got) && PromptsAlone(b.pending + Stream(got)) {
        DeliverIsFrames(b, got);
      }
    }
  }

  function TotalSize(input: seq<Text>): nat
    decreases input
  {
    if input == [] then 0 else |input[0]| + TotalSize(input[1..])
  }

  lemma AppendNothing(b: Buffer, chunk: Text)
    requires chunk == []
    ensures Append(b, chunk) == b
  {
    assert b.pending + [] == b.pending;
  }

  lemma {:induction false} StreamJoin(got: seq<Text>, more: seq<Text>)
    ensures Stream(got + more) == Stream(got) + Stream(more)
    decreases got
  {
    if got == [] {
      assert got + more == more && [] + Stream(more) == Stream(more);
    } else {
      assert (got + more)[1..] == got[1..] + more;
      StreamJoin(got[1..], more);
      Regroup(got[0], Stream(got[1..]), Stream(more));
    }
  }

  lemma StreamMore(got: seq<Text>, chunk: Text, input: seq<Text>)
    ensures Stream(got + [chunk]) + Stream(input) == Stream(got) + (chunk + Stream(input))
  {
    StreamJoin(got, [chunk]);
    assert [chunk][1..] == [] && chunk + [] == chunk;
    Regroup(Stream(got), chunk, Stream(input));
  }

  lemma NextLineStarts(b: Buffer)
    ensures AllRead(b, []) && Stream([]) == []
    ensures NextLine(b, []) == if Try(b).line.Some? then Next(Try(b).line, Settle(Try(b).after)) else Next(None, Ditch(Try(b).after))
  {
  }
}
