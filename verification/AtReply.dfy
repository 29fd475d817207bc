/** What processLine makes of a line, and what the reply to one command has to hold. */
module AtReply {
  import opened AtText
  import opened Wrappers

  type Line = Text

  /** ATCommandType */
  datatype Kind = NoResult | Raw | Numeric | SingleLine | MultiLine

  /** One at_send_command_full: command, type, responsePrefix, whether a PDU waits for the
      prompt, whether there is a timeout, and whether the caller passed an out-pointer. */
  datatype Call = Call(command: string, kind: Kind, prefix: string, pdu: bool, timed: bool, wants: bool)

  /** ATResponse; the intermediates stand in the order of the linked list. */
  datatype Response = Response(final: Option<Line>, success: bool, intermediates: seq<Line>)

  const EMPTY := Response(None, false, [])

  /** The command in the slot: its call, whether its PDU is still to be sent, its response. */
  datatype Pending = Pending(call: Call, prompt: bool, response: Response)

  function Fresh(call: Call): Pending { Pending(call, call.pdu, EMPTY) }

  // ------------------------------------------------------------ classifying lines

  const FINAL_SUCCESS: seq<Line> := ["OK", "CONNECT"]

  const FINAL_ERROR: seq<Line> := [
    "ERROR", "+CMS ERROR:", "+CME ERROR:", "NO CARRIER", "NO ANSWER", "NO DIALTONE", "COMMAND NOT SUPPORT"
  ]

  predicate StartsWithAny(line: Line, prefixes: seq<Line>) {
    exists i :: 0 <= i < |prefixes| && prefixes[i] <= line
  }

  predicate Succeeds(line: Line) { StartsWithAny(line, FINAL_SUCCESS) }

  predicate Fails(line: Line) { StartsWithAny(line, FINAL_ERROR) }

  predicate Finals(line: Line) { Succeeds(line) || Fails(line) }

  predicate StartsWithDigit(line: Line) { line != [] && '0' <= line[0] <= '9' }

  /** The line is of the sort the command asks for. */
  predicate Fits(call: Call, line: Line) {
    match call.kind
    case NoResult => false
    case Raw => true
    case Numeric => StartsWithDigit(line)
    case SingleLine => call.prefix <= line
    case MultiLine => call.prefix <= line
  }

  // ---------------------------------------------------------------- processLine

  datatype Destination = Unsolicited | Intermediate | Final | Prompt

  function Route(slot: Option<Pending>, line: Line): Destination {
    match slot
    case None => Unsolicited
    case Some(p) =>
      if Finals(line) then Final
      else if p.prompt && line == PROMPT then Prompt
      else if Fits(p.call, line) && (p.call.kind == MultiLine || p.response.intermediates == []) then Intermediate
      else Unsolicited
  }

  /** The slot after the line */
  function Hear(p: Pending, line: Line): Pending {
    match Route(Some(p), line)
    case Unsolicited => p
    case Intermediate => p.(response := p.response.(intermediates := [line] + p.response.intermediates))
    case Final => p.(response := p.response.(final := Some(line), success := Succeeds(line)))
    case Prompt => p.(prompt := false)
  }

  function HearAll(p: Pending, lines: seq<Line>): Pending
    decreases lines
  {
    if lines == [] then p else HearAll(Hear(p, lines[0]), lines[1..])
  }

  // -------------------------------------------------- what a reply has to hold

  /** The lines a command may take: neither final nor the prompt its PDU answers. */
  function Takeable(prompt: bool, lines: seq<Line>): seq<Line>
    decreases lines
  {
    if lines == [] then []
    else if Finals(lines[0]) then Takeable(prompt, lines[1..])
    else if prompt && lines[0] == PROMPT then Takeable(false, lines[1..])
    else [lines[0]] + Takeable(prompt, lines[1..])
  }

  function Fitting(call: Call, lines: seq<Line>): seq<Line>
    decreases lines
  {
    if lines == [] then []
    else (if Fits(call, lines[0]) then [lines[0]] else []) + Fitting(call, lines[1..])
  }

  function First(lines: seq<Line>): seq<Line> { if lines == [] then [] else [lines[0]] }

  function Kept(kind: Kind, lines: seq<Line>): seq<Line> {
    if kind == MultiLine then lines else First(lines)
  }

  /** The intermediates in order of arrival: all that fit for MULTILINE, the first one that
      fits for NUMERIC, SINGLELINE and RAW. */
  function Due(call: Call, lines: seq<Line>): seq<Line> {
    Kept(call.kind, Fitting(call, Takeable(call.pdu, lines)))
  }

  /** The last final response */
  function LastFinal(lines: seq<Line>): Option<Line>
    decreases lines
  {
    if lines == [] then None
    else
      var n := |lines| - 1;
      if Finals(lines[n]) then Some(lines[n]) else LastFinal(lines[..n])
  }

  function Reversed<T>(s: seq<T>): (r: seq<T>)
    ensures |r| == |s| && forall i :: 0 <= i < |s| ==> r[i] == s[|s| - 1 - i]
  {
    if s == [] then [] else Reversed(s[1..]) + [s[0]]
  }

  lemma {:induction false} HearMore(p: Pending, lines: seq<Line>, line: Line)
    ensures HearAll(p, lines + [line]) == Hear(HearAll(p, lines), line)
    decreases lines
  {
    if lines == [] {
      assert [line][1..] == [];
      assert lines + [line] == [line];
    } else {
      assert (lines + [line])[1..] == lines[1..] + [line];
      HearMore(Hear(p, lines[0]), lines[1..], line);
    }
  }

  function Arrived(p: Pending): seq<Line> { Reversed(p.response.intermediates) }

  /** What one line adds to the intermediates, and to the lines a command may take. */
  lemma HearOne(p: Pending, line: Line, rest: seq<Line>)
    ensures Hear(p, line).call == p.call
    ensures Arrived(Hear(p, line)) == Arrived(p) + if Route(Some(p), line) == Intermediate then [line] else []
    ensures Fitting(p.call, Takeable(p.prompt, [line] + rest))
      == (if !Finals(line) && !(p.prompt && line == PROMPT) && Fits(p.call, line) then [line] else [])
        + Fitting(p.call, Takeable(Hear(p, line).prompt, rest))
  {
    hide Finals, Fits, PROMPT;
    assert ([line] + rest)[1..] == rest;
    assert ([line] + p.response.intermediates)[1..] == p.response.intermediates;
    if !Finals(line) && !(p.prompt && line == PROMPT) {
      FittingFirst(p.call, line, Takeable(p.prompt, rest));
    }
  }

  lemma {:induction false} HeardIntermediates(p: Pending, lines: seq<Line>)
    requires p.call.kind != MultiLine ==> |p.response.intermediates| <= 1
    ensures HearAll(p, lines).call == p.call
    ensures Arrived(HearAll(p, lines)) == Kept(p.call.kind, Arrived(p) + Fitting(p.call, Takeable(p.prompt, lines)))
    decreases lines
  {
    hide *;
    if lines == [] {
      NothingFits(p.call, p.prompt);
      KeptAll(p);
      assert HearAll(p, lines) == p by { HearNone(p); }
    } else {
      var q := Hear(p, lines[0]);
      assert [lines[0]] + lines[1..] == lines;
      HearOne(p, lines[0], lines[1..]);
      HearFirst(p, lines);
      assert q.call.kind != MultiLine ==> |q.response.intermediates| <= 1 by { StaysSingle(p, lines[0]); }
      HeardIntermediates(q, lines[1..]);
      KeptStep(p, lines[0], Fitting(p.call, Takeable(q.prompt, lines[1..])));
    }
  }

  lemma HearNone(p: Pending)
    ensures HearAll(p, []) == p
  {
  }

  lemma HearFirst(p: Pending, lines: seq<Line>)
    requires lines != []
    ensures HearAll(p, lines) == HearAll(Hear(p, lines[0]), lines[1..])
  {
  }

  lemma StaysSingle(p: Pending, line: Line)
    requires p.call.kind != MultiLine ==> |p.response.intermediates| <= 1
    ensures p.call.kind != MultiLine ==> |Hear(p, line).response.intermediates| <= 1
  {
  }

  lemma KeptAll(p: Pending)
    requires p.call.kind != MultiLine ==> |p.response.intermediates| <= 1
    ensures Kept(p.call.kind, Arrived(p) + []) == Arrived(p)
  {
    assert Arrived(p) + [] == Arrived(p);
  }

  lemma KeptStep(p: Pending, line: Line, more: seq<Line>)
    requires p.call.kind != MultiLine ==> |p.response.intermediates| <= 1
    ensures var fits := !Finals(line) && !(p.prompt && line == PROMPT) && Fits(p.call, line);
      Kept(p.call.kind, Arrived(p) + (if Route(Some(p), line) == Intermediate then [line] else []) + more)
      == Kept(p.call.kind, Arrived(p) + ((if fits then [line] else []) + more))
  {
    hide Finals, Fits, PROMPT, Reversed;
    var had := Arrived(p);
    assert had + [] == had && [] + more == more;
    assert had + [line] + more == had + ([line] + more);
  }

  lemma NothingFits(call: Call, prompt: bool)
    ensures Fitting(call, Takeable(prompt, [])) == []
  {
  }

  lemma FittingFirst(call: Call, line: Line, rest: seq<Line>)
    ensures Fitting(call, [line] + rest) == (if Fits(call, line) then [line] else []) + Fitting(call, rest)
  {
    assert ([line] + rest)[1..] == rest;
  }

  lemma {:induction false} HeardFinal(p: Pending, lines: seq<Line>)
    requires p.response.final == None
    ensures HearAll(p, lines).response.final == LastFinal(lines)
    ensures LastFinal(lines).Some? ==> HearAll(p, lines).response.success == Succeeds(LastFinal(lines).value)
    ensures LastFinal(lines).None? ==> HearAll(p, lines).response.success == p.response.success
    decreases lines
  {
    if lines == [] {
    } else {
      var n := |lines| - 1;
      assert lines[..n] + [lines[n]] == lines;
      HeardFinal(p, lines[..n]);
      HearMore(p, lines[..n], lines[n]);
    }
  }

  /** The response the sender finds in the slot, the list turned round, is the one that is due:
      the fitting lines in order of arrival, and the last final response. */
  lemma ReplyIsDue(call: Call, lines: seq<Line>)
    ensures var r := HearAll(Fresh(call), lines).response;
      && Reversed(r.intermediates) == Due(call, lines)
      && r.final == LastFinal(lines)
      && r.success == (r.final.Some? && Succeeds(r.final.value))
  {
    HeardIntermediates(Fresh(call), lines);
    HeardFinal(Fresh(call), lines);
    var all := Fitting(call, Takeable(call.pdu, lines));
    var none: seq<Line> := Reversed(EMPTY.intermediates);
    assert none + all == all;
  }

  // ------------------------------------------------------- what each type is due

  /** Those lines of a sequence, in their order */
  function Those(p: Line -> bool, lines: seq<Line>): seq<Line>
    decreases lines
  {
    if lines == [] then [] else (if p(lines[0]) then [lines[0]] else []) + Those(p, lines[1..])
  }

  /** Without the first line that is such a one */
  function WithoutFirst(p: Line -> bool, lines: seq<Line>): seq<Line>
    decreases lines
  {
    if lines == [] then [] else if p(lines[0]) then lines[1..] else [lines[0]] + WithoutFirst(p, lines[1..])
  }

  lemma {:induction false} TakeableAre(prompt: bool, lines: seq<Line>)
    ensures var rest := Those((l: Line) => !Finals(l), lines);
      Takeable(prompt, lines) == if prompt then WithoutFirst((l: Line) => l == PROMPT, rest) else rest
    decreases lines
  {
    hide Finals, PROMPT;
    if lines != [] {
      TakeableAre(prompt, lines[1..]);
      TakeableAre(false, lines[1..]);
      var rest := Those((l: Line) => !Finals(l), lines[1..]);
      assert [] + rest == rest;
      assert ([lines[0]] + rest)[1..] == rest;
    }
  }

  lemma {:induction false} FittingAre(call: Call, lines: seq<Line>, p: Line -> bool)
    requires forall l: Line :: Fits(call, l) == p(l)
    ensures Fitting(call, lines) == Those(p, lines)
    decreases lines
  {
    hide Fits;
    if lines != [] { FittingAre(call, lines[1..], p); }
  }

  lemma {:induction false} AllThose(p: Line -> bool, lines: seq<Line>)
    ensures (forall l: Line :: p(l)) ==> Those(p, lines) == lines
    ensures (forall l: Line :: !p(l)) ==> Those(p, lines) == []
    decreases lines
  {
    if lines != [] {
      AllThose(p, lines[1..]);
      assert lines == [lines[0]] + lines[1..];
    }
  }

  /** The reply of each command type, of all lines that came: the final ones go elsewhere, and so
      does the first prompt if a PDU waits for it. Of the others RAW is due the first, NUMERIC the
      first that starts with a digit, SINGLELINE the first and MULTILINE every one that starts with
      the prefix, and NO_RESULT none. */
  lemma DueByKind(call: Call, lines: seq<Line>)
    ensures var others := Those((l: Line) => !Finals(l), lines);
      var taken := if call.pdu then WithoutFirst((l: Line) => l == PROMPT, others) else others;
      && (call.kind == Raw ==> Due(call, lines) == First(taken))
      && (call.kind == Numeric ==> Due(call, lines) == First(Those((l: Line) => l != [] && '0' <= l[0] <= '9', taken)))
      && (call.kind == SingleLine ==> Due(call, lines) == First(Those((l: Line) => call.prefix <= l, taken)))
      && (call.kind == MultiLine ==> Due(call, lines) == Those((l: Line) => call.prefix <= l, taken))
      && (call.kind == NoResult ==> Due(call, lines) == [])
  {
    hide Finals, PROMPT, Takeable;
    TakeableAre(call.pdu, lines);
    var taken := Takeable(call.pdu, lines);
    match call.kind {
      case Raw =>
        FittingAre(call, taken, (l: Line) => true);
        AllThose((l: Line) => true, taken);
      case Numeric => FittingAre(call, taken, (l: Line) => l != [] && '0' <= l[0] <= '9');
      case SingleLine => FittingAre(call, taken, (l: Line) => call.prefix <= l);
      case MultiLine => FittingAre(call, taken, (l: Line) => call.prefix <= l);
      case NoResult =>
        FittingAre(call, taken, (l: Line) => false);
        AllThose((l: Line) => false, taken);
    }
  }

  /** The final responses a modem can give, and whether they are good ones */
  lemma FinalResponses(line: Line)
    ensures Succeeds(line) <==> "OK" <= line || "CONNECT" <= line
    ensures Fails(line) <==>
      || "ERROR" <= line || "+CMS ERROR:" <= line || "+CME ERROR:" <= line || "NO CARRIER" <= line
      || "NO ANSWER" <= line || "NO DIALTONE" <= line || "COMMAND NOT SUPPORT" <= line
  {
    assert FINAL_SUCCESS[0] == "OK" && FINAL_SUCCESS[1] == "CONNECT";
    assert FINAL_ERROR[0] == "ERROR" && FINAL_ERROR[1] == "+CMS ERROR:" && FINAL_ERROR[2] == "+CME ERROR:" && FINAL_ERROR[3] == "NO CARRIER";
    assert FINAL_ERROR[4] == "NO ANSWER" && FINAL_ERROR[5] == "NO DIALTONE" && FINAL_ERROR[6] == "COMMAND NOT SUPPORT";
  }
}
