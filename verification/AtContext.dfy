/** The response slot as it stands in memory: the linked list of intermediates, built at its
    head and turned round in place, and processLine on the fields of struct atcontext. */
module AtContext {
  import opened AtText
  import opened Wrappers

  import opened AtReply

  class ATLine {
    const line: Line
    var next: ATLine?

    constructor (line: Line, next: ATLine?)
      ensures this.line == line && this.next == next
    {
      this.line, this.next := line, next;
    }
  }

  class ATResponse {
    var success: bool
    var finalResponse: Option<Line>
    var intermediates: ATLine?
    ghost var nodes: seq<ATLine>

    /** calloc */
    constructor ()
      ensures Valid() && Value() == EMPTY && nodes == []
    {
      success, finalResponse, intermediates, nodes := false, None, null, [];
    }

    ghost predicate Valid()
      reads this, nodes
    {
      && intermediates == From(nodes, 0)
      && (forall i {:trigger nodes[i].next} :: 0 <= i < |nodes| ==> nodes[i].next == From(nodes, i + 1))
      && (forall i, j :: 0 <= i < j < |nodes| ==> nodes[i] != nodes[j])
    }

    ghost function Lines(): seq<Line>
      reads this
    {
      LinesOf(nodes)
    }

    ghost function Value(): Response
      reads this
    {
      Response(finalResponse, success, Lines())
    }

    /** addIntermediate */
    method AddIntermediate(line: Line)
      requires Valid()
      modifies this`intermediates, this`nodes
      ensures Valid() && Lines() == [line] + old(Lines())
      ensures |nodes| == |old(nodes)| + 1 && fresh(nodes[0]) && nodes[1..] == old(nodes)
    {
      var added := new ATLine(line, intermediates);
      intermediates := added;
      nodes := [added] + nodes;
      assert nodes[1..] == old(nodes);
    }

    /** reverseIntermediates */
    method ReverseIntermediates()
      requires Valid()
      modifies this`intermediates, this`nodes, nodes
      ensures Valid() && Lines() == Reversed(old(Lines())) && nodes == Reversed(old(nodes))
    {
      hide Reversed;
      ghost var was := nodes;
      Relink();
      nodes := Reversed(was);
      LinesReversed(was);
    }

    /** Its loop: each node points at the one before it. */
    method Relink()
      requires Valid()
      modifies this`intermediates, nodes
      ensures intermediates == if nodes == [] then null else nodes[|nodes| - 1]
      ensures forall k {:trigger nodes[k].next} :: 0 <= k < |nodes| ==> nodes[k].next == if k == 0 then null else nodes[k - 1]
    {
      var current := intermediates;
      intermediates := null;
      ghost var i := 0;
      while current != null
        invariant 0 <= i <= |nodes| && current == From(nodes, i)
        invariant intermediates == if i == 0 then null else nodes[i - 1]
        invariant forall k {:trigger nodes[k].next} :: 0 <= k < i ==> nodes[k].next == if k == 0 then null else nodes[k - 1]
        invariant forall k {:trigger nodes[k].next} :: i <= k < |nodes| ==> nodes[k].next == From(nodes, k + 1)
        decreases |nodes| - i
      {
        var next := current.next;
        current.next := intermediates;
        intermediates := current;
        current := next;
        i := i + 1;
      }
    }
  }

  ghost function LinesOf(nodes: seq<ATLine>): (r: seq<Line>)
    ensures |r| == |nodes| && forall i :: 0 <= i < |nodes| ==> r[i] == nodes[i].line
  {
    seq(|nodes|, i requires 0 <= i < |nodes| => nodes[i].line)
  }

  lemma LinesReversed(nodes: seq<ATLine>)
    ensures LinesOf(Reversed(nodes)) == Reversed(LinesOf(nodes))
  {
  }

  function From(nodes: seq<ATLine>, i: nat): ATLine? {
    if i < |nodes| then nodes[i] else null
  }

  /** The part of struct atcontext that commandmutex protects, and what the handler was given. */
  class Context {
    var kind: Kind
    var responsePrefix: string
    var smsPDU: bool
    var response: ATResponse?
    var unsolicited: seq<Line>
    /** The number of PDUs sent with their control-Z */
    var sent: nat
    ghost var call: Call

    constructor ()
      ensures Valid() && Slot() == None && unsolicited == [] && sent == 0
    {
      kind, responsePrefix, smsPDU, response, unsolicited, sent := NoResult, "", false, null, [], 0;
    }

    ghost predicate Valid()
      reads this, response, if response != null then response.nodes else []
    {
      response != null ==> response.Valid() && call.kind == kind && call.prefix == responsePrefix
    }

    ghost function Slot(): Option<Pending>
      reads this, response
    {
      if response == null then None else Some(Pending(call, smsPDU, response.Value()))
    }

    /** The fields a sender fills in after writeline */
    method Install(c: Call)
      requires Valid()
      modifies this
      ensures Valid() && Slot() == Some(Fresh(c)) && fresh(response) && response.nodes == []
      ensures unsolicited == old(unsolicited) && sent == old(sent)
    {
      kind, responsePrefix, smsPDU, call := c.kind, c.prefix, c.pdu, c;
      response := new ATResponse();
    }

    /** processLine */
    method ProcessLine(line: Line)
      requires Valid()
      modifies this`smsPDU, this`unsolicited, this`sent, response
      ensures Valid() && response == old(response)
      ensures Slot() == match old(Slot()) case None => None case Some(p) => Some(Hear(p, line))
      ensures unsolicited == old(unsolicited) + if Route(old(Slot()), line) == Unsolicited then [line] else []
      ensures sent == old(sent) + if Route(old(Slot()), line) == Prompt then 1 else 0
      ensures response != null ==> forall k :: 0 <= k < |response.nodes| ==> fresh(response.nodes[k]) || response.nodes[k] in old(response.nodes)
    {
      hide Succeeds, Fails, StartsWithDigit, PROMPT;
      if response == null {
        unsolicited := unsolicited + [line];
      } else if Succeeds(line) {
        response.success := true;
        response.finalResponse := Some(line);
      } else if Fails(line) {
        response.success := false;
        response.finalResponse := Some(line);
      } else if smsPDU && line == PROMPT {
        sent := sent + 1;
        smsPDU := false;
      } else {
        Keep(line);
      }
    }

    /** The switch over the type of the command */
    method Keep(line: Line)
      requires Valid() && response != null && !Finals(line) && !(smsPDU && line == PROMPT)
      modifies this`unsolicited, response
      ensures Valid() && response == old(response) && Slot() == Some(Hear(old(Slot().value), line))
      ensures unsolicited == old(unsolicited) + if Route(old(Slot()), line) == Unsolicited then [line] else []
      ensures forall k :: 0 <= k < |response.nodes| ==> fresh(response.nodes[k]) || response.nodes[k] in old(response.nodes)
    {
      hide Succeeds, Fails, StartsWithDigit, PROMPT;
      var keeps: bool;
      match kind {
        case NoResult => keeps := false;
        case Raw => keeps := response.intermediates == null;
        case Numeric => keeps := response.intermediates == null && StartsWithDigit(line);
        case SingleLine => keeps := response.intermediates == null && responsePrefix <= line;
        case MultiLine => keeps := responsePrefix <= line;
      }
      assert response.intermediates == null <==> response.Lines() == [];
      if keeps {
        response.AddIntermediate(line);
      } else {
        unsolicited := unsolicited + [line];
      }
    }

    /** What a sender does when its reply is complete: the list in order of arrival, and an
        empty slot. */
    method TakeReply() returns (r: ATResponse)
      requires Valid() && response != null
      modifies this, response, response.nodes
      ensures Valid() && Slot() == None && unsolicited == old(unsolicited) && sent == old(sent)
      ensures r == old(response) && r.Valid() && r.nodes == Reversed(old(response.nodes))
      ensures r.Value() == old(Slot().value.response).(intermediates := Reversed(old(Slot().value.response.intermediates)))
    {
      hide Reversed;
      response.ReverseIntermediates();
      r := response;
      response := null;
      smsPDU := false;
    }
  }

  /** A whole command on the fields: the slot is filled, the reader processes lines, and the sender
      takes its reply. It holds the fitting lines in order of arrival and the last final response;
      every line that goes nowhere else is handed to the handler. */
  method Exchange(c: Context, call: Call, lines: seq<Line>) returns (r: ATResponse)
    requires c.Valid() && c.response == null
    modifies c
    ensures c.Valid() && c.Slot() == None && fresh(r) && r.Valid()
    ensures r.Lines() == Due(call, lines) && r.finalResponse == LastFinal(lines)
    ensures r.success == (r.finalResponse.Some? && Succeeds(r.finalResponse.value))
    ensures c.unsolicited == old(c.unsolicited) + Others(Fresh(call), lines)
  {
    hide Hear, Reversed, Due, LastFinal, Succeeds, Route;
    c.Install(call);
    assert lines[..0] == [] && HearAll(Fresh(call), []) == Fresh(call);
    for k := 0 to |lines|
      invariant c.Valid() && c.response != null && fresh(c.response)
      invariant c.Slot() == Some(HearAll(Fresh(call), lines[..k]))
      invariant forall i :: 0 <= i < |c.response.nodes| ==> fresh(c.response.nodes[i])
      invariant c.unsolicited == old(c.unsolicited) + Others(Fresh(call), lines[..k])
    {
      ghost var p := HearAll(Fresh(call), lines[..k]);
      assert lines[..k + 1] == lines[..k] + [lines[k]];
      HearMore(Fresh(call), lines[..k], lines[k]);
      OthersMore(Fresh(call), lines[..k], lines[k]);
      c.ProcessLine(lines[k]);
    }
    assert lines[..|lines|] == lines;
    ReplyIsDue(call, lines);
    r := c.TakeReply();
  }

  /** The lines that are handed to the handler while the command is in the slot */
  function Others(p: Pending, lines: seq<Line>): seq<Line>
    decreases lines
  {
    if lines == [] then []
    else (if Route(Some(p), lines[0]) == Unsolicited then [lines[0]] else []) + Others(Hear(p, lines[0]), lines[1..])
  }

  lemma {:induction false} OthersMore(p: Pending, lines: seq<Line>, line: Line)
    ensures Others(p, lines + [line])
      == Others(p, lines) + if Route(Some(HearAll(p, lines)), line) == Unsolicited then [line] else []
    decreases lines
  {
    hide Route, Hear;
    if lines == [] {
      assert lines + [line] == [line] && [line][1..] == [];
    } else {
      assert (lines + [line])[1..] == lines[1..] + [line];
      OthersMore(Hear(p, lines[0]), lines[1..], line);
    }
  }
}
