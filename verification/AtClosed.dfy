/** The channel from at_close or the end of its input on, and the attempts of at_handshake. */
module AtClosed {
  import opened Wrappers

  import opened AtReply
  import opened AtProtocol

  /** The descriptor is gone, or the reader is. */
  predicate Closed(s: State) { !s.open || s.readerClosed }

  /** What a step adds to the log: one event at most */
  function Added(s: State, u: State): seq<Event>
    requires s.log <= u.log
  {
    u.log[|s.log|..]
  }

  /** The thread that takes a step */
  function Actor(e: Step): Option<Thread> {
    match e
    case Begin(t, _, _) => Some(t)
    case Enter(t) => Some(t)
    case TryLock(t) => Some(t)
    case WakeQueued(t) => Some(t)
    case WriteLine(t, _) => Some(t)
    case TestFinal(t) => Some(t)
    case Wake(t) => Some(t)
    case Expire(t) => Some(t)
    case CleanUp(t) => Some(t)
    case Leave(t) => Some(t)
    case BeginClose(t) => Some(t)
    case EnterClose(t) => Some(t)
    case LeaveClose(t) => Some(t)
    case _ => None
  }

  /** The steps that note an event */
  predicate Noting(e: Step) { e.WriteLine? || e.TestFinal? || e.Expire? || e.ProcessLine? || e.ReadPair? }

  lemma QuietStep(s: State, e: Step)
    requires Apply(s, e).Some? && !Noting(e)
    ensures var u := Apply(s, e).value; u.log == s.log && (u.open ==> s.open) && (s.readerClosed ==> u.readerClosed)
  {
  }

  /** An event is noted by its own thread; a write only on an open channel, a reply only while the reader lives. */
  predicate Noted(s: State, e: Step, v: Event) {
    && (v.Wrote? ==> Actor(e) == Some(v.thread) && !Closed(s))
    && (v.Unwritten? ==> Actor(e) == Some(v.thread))
    && (v.Finished? ==> Actor(e) == Some(v.thread) && (s.readerClosed ==> v.outcome.Error?))
  }

  lemma WriteNotes(s: State, t: Thread, result: WriteResult)
    requires Written(s, t, result).Some?
    ensures var u := Written(s, t, result).value;
      && u.open == s.open && u.readerClosed == s.readerClosed && |u.log| == |s.log| + 1 && u.log == s.log + [u.log[|s.log|]]
      && (var v := u.log[|s.log|]; (v.Wrote? || v.Unwritten?) && v.thread == t && (v.Wrote? ==> !Closed(s)))
  {
    hide Fresh;
  }

  lemma TestNotes(s: State, t: Thread)
    requires Tested(s, t).Some?
    ensures var u := Tested(s, t).value;
      && u.open == s.open && u.readerClosed == s.readerClosed
      && (u.log == s.log || (|u.log| == |s.log| + 1 && u.log == s.log + [u.log[|s.log|]]
          && var v := u.log[|s.log|]; v.Finished? && v.thread == t && (s.readerClosed ==> v.outcome.Error?)))
  {
    hide Reversed;
  }

  lemma NotingStep(s: State, e: Step)
    requires Apply(s, e).Some? && Noting(e)
    ensures var u := Apply(s, e).value;
      && u.open == s.open && u.readerClosed == s.readerClosed
      && (u.log == s.log || (|u.log| == |s.log| + 1 && u.log == s.log + [u.log[|s.log|]] && Noted(s, e, u.log[|s.log|])))
  {
    hide Route, Hear, Written, Tested, Closed;
    match e {
      case WriteLine(t, result) => WriteNotes(s, t, result);
      case TestFinal(t) => TestNotes(s, t);
      case _ =>
    }
  }

  /** A step adds one event at most, opens nothing, and writes or replies to nothing on a closed channel. */
  lemma StepAdds(s: State, e: Step)
    requires Apply(s, e).Some?
    ensures var u := Apply(s, e).value;
      && s.log <= u.log && |Added(s, u)| <= 1
      && (u.open ==> s.open) && (s.readerClosed ==> u.readerClosed)
      && (Closed(s) ==> forall k :: 0 <= k < |Added(s, u)| ==> !Added(s, u)[k].Wrote?)
      && (s.readerClosed ==> forall k :: 0 <= k < |Added(s, u)| && Added(s, u)[k].Finished? ==> Added(s, u)[k].outcome.Error?)
  {
    hide Apply, Closed;
    if Noting(e) { NotingStep(s, e); } else { QuietStep(s, e); }
    OneAdded(s, Apply(s, e).value);
  }

  lemma OneAdded(s: State, u: State)
    requires u.log == s.log || (|u.log| == |s.log| + 1 && u.log == s.log + [u.log[|s.log|]])
    ensures s.log <= u.log && |Added(s, u)| <= 1
    ensures |Added(s, u)| == 1 ==> |u.log| == |s.log| + 1 && Added(s, u)[0] == u.log[|s.log|]
  {
  }

  /** From the time the channel is closed on, in every run: it stays closed, nothing is written, and
      once the reader is gone no command gets a reply. */
  lemma {:induction false} ClosedForGood(s: State, steps: seq<Step>)
    requires Run(s, steps).Some?
    ensures var u := Run(s, steps).value;
      && s.log <= u.log && (u.open ==> s.open) && (s.readerClosed ==> u.readerClosed)
      && (Closed(s) ==> forall k :: |s.log| <= k < |u.log| ==> !u.log[k].Wrote?)
      && (s.readerClosed ==> forall k :: |s.log| <= k < |u.log| && u.log[k].Finished? ==> u.log[k].outcome.Error?)
    decreases steps
  {
    hide Apply;
    if steps != [] {
      var m := Apply(s, steps[0]).value;
      StepAdds(s, steps[0]);
      ClosedForGood(m, steps[1..]);
      var u := Run(s, steps).value;
      forall k | |s.log| <= k < |u.log|
        ensures Closed(s) ==> !u.log[k].Wrote?
        ensures s.readerClosed && u.log[k].Finished? ==> u.log[k].outcome.Error?
      {
        if k < |m.log| {
          assert u.log[k] == m.log[k] == Added(s, m)[k - |s.log|];
        }
      }
    }
  }

  /** What becomes of a command that reached its write: on an open channel it is written or times
      out, on a closed one it ends with AT_ERROR_CHANNEL_CLOSED, and without memory with
      AT_ERROR_GENERIC. */
  lemma WriteComesTo(s: State, t: Thread, result: WriteResult)
    requires Reachable(s) && At(s, t).Granted?
    ensures Apply(s, WriteLine(t, result)).Some?
    ensures var u := Apply(s, WriteLine(t, result)).value;
      var call := At(s, t).call;
      && |u.log| == |s.log| + 1 && s.log <= u.log
      && var e := u.log[|s.log|];
      && (e == Wrote(t, call) <==> result == Sent && !Closed(s))
      && (e == Unwritten(t, GENERIC) <==> result == NoMemory)
      && (e == Unwritten(t, CLOSED) <==> result != NoMemory && Closed(s))
      && (e == Unwritten(t, TIMEOUT) <==> result == WriteError && !Closed(s))
      && (e.Wrote? || e.Unwritten?)
      && (e.Wrote? ==> u.slot == Some(Fresh(call)) && At(u, t) == Testing(call, At(s, t).tries))
      && (e.Unwritten? ==> u.slot == None && At(u, t) == Ended(call, At(s, t).tries, Error(e.code)))
  {
    hide Reachable;
    NeverPending(s, t);
  }

  /** What the waiting loop comes to: a sender goes to sleep exactly as long as there is neither a
      final response nor the end of the reader, and the end of the reader wins. */
  lemma WaitComesTo(s: State, t: Thread)
    requires Reachable(s) && At(s, t).Testing?
    ensures s.slot.Some? && Apply(s, TestFinal(t)).Some?
    ensures var u := Apply(s, TestFinal(t)).value;
      && (At(u, t).Asleep? <==> !s.readerClosed && s.slot.value.response.final.None?)
      && (At(u, t) == Ended(At(s, t).call, At(s, t).tries, Error(CLOSED)) <==> s.readerClosed)
      && (At(u, t).Ended? && At(u, t).outcome.Reply? <==> !s.readerClosed && s.slot.value.response.final.Some?)
  {
    hide Reachable, Replay, Reversed;
    ReachableInv(s);
    Mine(s, t);
  }

  // --------------------------------------------------------------- at_close

  /** at_close inside its two halves, and the end of the reader */
  predicate CloseCloses(s: State) {
    && (forall t <- s.places :: (s.places[t].Closing? ==> !s.open) && (s.places[t].ClosingIn? ==> !s.open && s.readerClosed))
    && (s.reader.EndingIn? ==> s.readerClosed)
  }

  lemma StepCloses(s: State, e: Step)
    requires CloseCloses(s) && Apply(s, e).Some?
    ensures CloseCloses(Apply(s, e).value)
  {
    hide Route, Hear, Reversed;
  }

  lemma {:induction false} RunCloses(s: State, steps: seq<Step>)
    requires CloseCloses(s) && Run(s, steps).Some?
    ensures CloseCloses(Run(s, steps).value)
    decreases steps
  {
    hide Apply, CloseCloses;
    if steps != [] {
      StepCloses(s, steps[0]);
      RunCloses(Apply(s, steps[0]).value, steps[1..]);
    }
  }

  /** at_close leaves a closed channel behind: when it returns, and in every run from then on, the
      descriptor and the reader are gone, nothing is written and nothing is replied. */
  lemma AfterClose(s: State, t: Thread, steps: seq<Step>)
    requires Reachable(s) && At(s, t).ClosingIn? && Run(s, steps).Some?
    ensures var u := Run(s, steps).value;
      && !u.open && u.readerClosed && s.log <= u.log
      && forall k :: |s.log| <= k < |u.log| ==> !u.log[k].Wrote? && (u.log[k].Finished? ==> u.log[k].outcome.Error?)
  {
    hide Run;
    var start: State, path :| Initial(start) && Run(start, path) == Some(s);
    RunCloses(start, path);
    ClosedForGood(s, steps);
  }

  // ------------------------------------------------------- the end of the input

  /** From the end of the input on: the reader is on its way out, and nothing but at_close and the
      reader itself closes the channel. */
  predicate InputOver(s: State, told: bool, was: bool) {
    match s.reader
    case Ending => told && s.readerClosed == was
    case EndingIn => told && s.readerClosed
    case Gone => s.readerClosed == (told || was)
    case _ => false
  }

  lemma StepLeaves(s: State, e: Step, told: bool, was: bool)
    requires InputOver(s, told, was) && Apply(s, e).Some? && !e.EnterClose?
    ensures InputOver(Apply(s, e).value, told, was)
  {
    hide Route, Hear, Reversed;
  }

  lemma {:induction false} RunLeaves(s: State, steps: seq<Step>, told: bool, was: bool)
    requires InputOver(s, told, was) && Run(s, steps).Some? && forall e :: e in steps ==> !e.EnterClose?
    ensures InputOver(Run(s, steps).value, told, was)
    decreases steps
  {
    hide Apply, InputOver;
    if steps != [] {
      assert steps[0] in steps;
      assert forall e :: e in steps[1..] ==> e in steps;
      StepLeaves(s, steps[0], told, was);
      RunLeaves(Apply(s, steps[0]).value, steps[1..], told, was);
    }
  }

  /** The end of the input closes the channel for its senders exactly where a callback for it is
      set: without one, and without at_close, senders that wait for a reply are never told. */
  lemma EndSeenExactly(s: State, steps: seq<Step>)
    requires s.reader == Idling && Run(s, [EndOfInput] + steps).Some? && forall e :: e in steps ==> !e.EnterClose?
    ensures Apply(s, EndOfInput).value.reader.Gone? <==> !s.callback || s.readerClosed
    ensures var u := Run(s, [EndOfInput] + steps).value;
      u.reader.Gone? ==> (u.readerClosed <==> s.callback || s.readerClosed)
  {
    var all := [EndOfInput] + steps;
    assert all[0] == EndOfInput && all[1..] == steps;
    RunLeaves(Apply(s, EndOfInput).value, steps, s.callback && !s.readerClosed, s.readerClosed);
  }

  // ------------------------------------------------------------- at_handshake

  predicate Attempt(t: Thread, e: Event) { (e.Wrote? || e.Unwritten?) && e.thread == t }

  /** How often thread t tried to write among the events from k on */
  function Attempts(log: seq<Event>, k: nat, t: Thread): nat
    decreases log
  {
    if |log| <= k then 0
    else Attempts(log[..|log| - 1], k, t) + if Attempt(t, log[|log| - 1]) then 1 else 0
  }

  /** The command that began when the log had k events, with n repetitions, after some steps: every
      repetition is one attempt, and it leaves after a reply or after the last one. */
  predicate Going(s: State, k: nat, t: Thread, call: Call, n: nat) {
    var tried := Attempts(s.log, k, t);
    match At(s, t)
    case Entering(c, tries) => c == call && tries == n && tried == 0
    case Trying(c, tries) => c == call && tries <= n && tried == n - tries
    case Queued(c, tries) => c == call && tries <= n && tried == n - tries
    case Granted(c, tries) => c == call && tries <= n && tried == n - tries
    case Testing(c, tries) => c == call && tries <= n && tried == n - tries + 1
    case Asleep(c, tries) => c == call && tries <= n && tried == n - tries + 1
    case Ended(c, tries, outcome) => c == call && tries <= n && tried == n - tries + 1 && (outcome.Reply? ==> Replied(s.log, k, t))
    case Leaving => 1 <= tried <= n + 1 && (tried == n + 1 || Replied(s.log, k, t))
    case _ => false
  }

  predicate Replied(log: seq<Event>, k: nat, t: Thread) {
    exists i :: k <= i < |log| && log[i].Finished? && log[i].thread == t && log[i].outcome.Reply?
  }

  lemma AttemptsMore(log: seq<Event>, e: Event, k: nat, t: Thread)
    requires k <= |log|
    ensures Attempts(log + [e], k, t) == Attempts(log, k, t) + if Attempt(t, e) then 1 else 0
    ensures Replied(log, k, t) ==> Replied(log + [e], k, t)
    ensures e.Finished? && e.thread == t && e.outcome.Reply? ==> Replied(log + [e], k, t)
  {
    assert (log + [e])[..|log|] == log;
    if Replied(log, k, t) {
      var i :| k <= i < |log| && log[i].Finished? && log[i].thread == t && log[i].outcome.Reply?;
      assert (log + [e])[i] == log[i];
    }
    if e.Finished? && e.thread == t && e.outcome.Reply? { assert (log + [e])[|log|] == e; }
  }

  /** A step of another thread leaves the thread where it is and does not act for it. */
  lemma OthersStay(s: State, e: Step, t: Thread)
    requires Apply(s, e).Some? && Actor(e) != Some(t)
    ensures var u := Apply(s, e).value;
      && At(u, t) == At(s, t)
      && (u.log == s.log || exists v :: u.log == s.log + [v] && !Attempt(t, v))
  {
    hide Apply;
    OtherPlace(s, e, t);
    if Noting(e) { NotingStep(s, e); } else { QuietStep(s, e); }
    var u := Apply(s, e).value;
    assert u.log != s.log ==> !Attempt(t, u.log[|s.log|]);
  }

  lemma OtherPlace(s: State, e: Step, t: Thread)
    requires Apply(s, e).Some? && Actor(e) != Some(t)
    ensures At(Apply(s, e).value, t) == At(s, t)
  {
  }

  /** The steps of the sender that note nothing */
  lemma QuietGoes(s: State, e: Step, k: nat, t: Thread, call: Call, n: nat)
    requires Going(s, k, t, call, n) && Apply(s, e).Some? && Actor(e) == Some(t)
    requires e.Begin? || e.Enter? || e.TryLock? || e.WakeQueued? || e.Wake? || e.CleanUp? || e.BeginClose? || e.EnterClose? || e.LeaveClose?
    ensures Going(Apply(s, e).value, k, t, call, n) && Apply(s, e).value.log == s.log
  {
    hide Attempts, Replied;
  }

  lemma WriteGoes(s: State, result: WriteResult, k: nat, t: Thread, call: Call, n: nat)
    requires Going(s, k, t, call, n) && k <= |s.log| && Written(s, t, result).Some?
    ensures Going(Written(s, t, result).value, k, t, call, n) && s.log <= Written(s, t, result).value.log
  {
    hide Attempts, Replied, Fresh, Closed;
    var u := Written(s, t, result).value;
    WriteNotes(s, t, result);
    AttemptsMore(s.log, u.log[|s.log|], k, t);
  }

  lemma TestGoes(s: State, k: nat, t: Thread, call: Call, n: nat)
    requires Going(s, k, t, call, n) && k <= |s.log| && Tested(s, t).Some?
    ensures Going(Tested(s, t).value, k, t, call, n) && s.log <= Tested(s, t).value.log
  {
    hide Attempts, Replied, Reversed;
    var u := Tested(s, t).value;
    if u.log != s.log {
      assert u.log == s.log + [u.log[|s.log|]];
      AttemptsMore(s.log, u.log[|s.log|], k, t);
    }
  }

  lemma ExpiryGoes(s: State, k: nat, t: Thread, call: Call, n: nat)
    requires Going(s, k, t, call, n) && k <= |s.log| && Expired(s, t).Some?
    ensures Going(Expired(s, t).value, k, t, call, n) && s.log <= Expired(s, t).value.log
  {
    hide Attempts, Replied;
    var u := Expired(s, t).value;
    assert u.log == s.log + [u.log[|s.log|]];
    AttemptsMore(s.log, u.log[|s.log|], k, t);
  }

  lemma OtherGoes(s: State, e: Step, k: nat, t: Thread, call: Call, n: nat)
    requires Going(s, k, t, call, n) && k <= |s.log| && Apply(s, e).Some? && Actor(e) != Some(t)
    ensures Going(Apply(s, e).value, k, t, call, n) && s.log <= Apply(s, e).value.log
  {
    hide Attempts, Replied, Apply, Attempt;
    OthersStay(s, e, t);
    var u := Apply(s, e).value;
    if u.log != s.log {
      var v :| u.log == s.log + [v] && !Attempt(t, v);
      AttemptsMore(s.log, v, k, t);
    }
  }

  lemma StepGoes(s: State, e: Step, k: nat, t: Thread, call: Call, n: nat)
    requires Going(s, k, t, call, n) && k <= |s.log| && Apply(s, e).Some? && e != Leave(t)
    ensures Going(Apply(s, e).value, k, t, call, n) && k <= |Apply(s, e).value.log|
  {
    hide Going, Written, Tested, Expired, CleanedUp, Woken, Tried, QueueLeft, Entered, Processed;
    if Actor(e) != Some(t) {
      OtherGoes(s, e, k, t, call, n);
    } else if e.WriteLine? {
      WriteGoes(s, e.result, k, t, call, n);
    } else if e.TestFinal? {
      TestGoes(s, k, t, call, n);
    } else if e.Expire? {
      ExpiryGoes(s, k, t, call, n);
    } else {
      QuietGoes(s, e, k, t, call, n);
    }
  }

  lemma {:induction false} RunGoes(s: State, steps: seq<Step>, k: nat, t: Thread, call: Call, n: nat)
    requires Going(s, k, t, call, n) && k <= |s.log| && Run(s, steps).Some? && Leave(t) !in steps
    ensures Going(Run(s, steps).value, k, t, call, n) && k <= |Run(s, steps).value.log|
    decreases steps
  {
    hide Apply, Going;
    if steps != [] {
      assert steps[0] in steps;
      assert forall e :: e in steps[1..] ==> e in steps;
      StepGoes(s, steps[0], k, t, call, n);
      RunGoes(Apply(s, steps[0]).value, steps[1..], k, t, call, n);
    }
  }

  /** A command with n repetitions writes at least once and at most n + 1 times before it returns,
      and returns before the last repetition only with a reply. */
  lemma HandshakeTries(s: State, steps: seq<Step>, t: Thread, call: Call, n: nat)
    requires At(s, t) == Idle && Run(s, [Begin(t, call, n)] + steps).Some? && Leave(t) !in steps
    ensures var u := Run(s, [Begin(t, call, n)] + steps).value;
      && |s.log| <= |u.log|
      && Attempts(u.log, |s.log|, t) <= n + 1
      && (At(u, t).Leaving? ==>
          Attempts(u.log, |s.log|, t) >= 1 && (Attempts(u.log, |s.log|, t) == n + 1 || Replied(u.log, |s.log|, t)))
  {
    hide Replied;
    var all := [Begin(t, call, n)] + steps;
    assert all[0] == Begin(t, call, n) && all[1..] == steps;
    var m := Apply(s, all[0]).value;
    assert Attempts(m.log, |s.log|, t) == 0;
    RunGoes(m, steps, |s.log|, t, call, n);
  }
}
