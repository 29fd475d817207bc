/** The AT channel as a state machine: any number of sender threads, the reader thread and
    at_close, interleaved at every lock, unlock, wait and wake-up of the two mutexes and two
    condition variables. A condition variable holds no state: a waiter may wake at any time,
    which includes every signal, every lost signal and every spurious wake-up. */
module AtProtocol {
  import opened Wrappers

  import opened AtReply

  const GENERIC := -1
  const PENDING := -2
  const CLOSED := -3
  const TIMEOUT := -4
  const INVALID_RESPONSE := -6

  /** What at_send_command_full_nolock comes to */
  datatype Outcome = Error(code: int) | Reply(response: Response)

  type Thread = nat

  /** Where a sender stands. tries counts the repetitions left to at_handshake. */
  datatype Place =
    | Idle
    /** at pthread_mutex_lock(commandmutex) */
    | Entering(call: Call, tries: nat)
    /** at pthread_mutex_trylock(requestmutex), with commandmutex */
    | Trying(call: Call, tries: nat)
    /** in pthread_cond_wait(requestcond, commandmutex) */
    | Queued(call: Call, tries: nat)
    /** before the test of response, with both mutexes */
    | Granted(call: Call, tries: nat)
    /** at the test of the waiting loop, with both mutexes */
    | Testing(call: Call, tries: nat)
    /** in the wait for commandcond, with requestmutex */
    | Asleep(call: Call, tries: nat)
    /** at the label error, with both mutexes */
    | Ended(call: Call, tries: nat, outcome: Outcome)
    /** before pthread_mutex_unlock(commandmutex) */
    | Leaving
    /** at_close, waiting for commandmutex and with it */
    | Closing
    | ClosingIn

  datatype Reading =
    | Idling
    | Holding(line: Line)
    | Inside(line: Line)
    | Handled
    /** onReaderClosed, waiting for commandmutex and with it */
    | Ending
    | EndingIn
    | Gone

  datatype Owner = Nobody | Sender(thread: Thread) | Reader

  /** What happened on the channel, in order */
  datatype Event =
    | Wrote(thread: Thread, call: Call)
    | Unwritten(thread: Thread, code: int)
    | Heard(line: Line, destination: Destination)
    | Pair(line1: Line, line2: Line)
    | Finished(thread: Thread, outcome: Outcome)

  datatype State = State(
    command: Owner,
    request: Option<Thread>,
    slot: Option<Pending>,
    open: bool,
    readerClosed: bool,
    callback: bool,
    places: map<Thread, Place>,
    reader: Reading,
    log: seq<Event>)

  function At(s: State, t: Thread): Place {
    if t in s.places then s.places[t] else Idle
  }

  function Move(s: State, t: Thread, place: Place): State {
    s.(places := s.places[t := place])
  }

  function Note(s: State, e: Event): State {
    s.(log := s.log + [e])
  }

  /** at_open */
  predicate Initial(s: State) {
    && s.command == Nobody && s.request == None && s.slot == None && s.open && !s.readerClosed
    && s.places == map[] && s.reader == Idling && s.log == []
  }

  // ------------------------------------------------------------------- the steps

  /** What asprintf and write make of writeline */
  datatype WriteResult = Sent | NoMemory | WriteError

  datatype Step =
    | Begin(thread: Thread, call: Call, tries: nat)
    | Enter(thread: Thread)
    | TryLock(thread: Thread)
    | WakeQueued(thread: Thread)
    | WriteLine(thread: Thread, result: WriteResult)
    | TestFinal(thread: Thread)
    | Wake(thread: Thread)
    | Expire(thread: Thread)
    | CleanUp(thread: Thread)
    | Leave(thread: Thread)
    | BeginClose(thread: Thread)
    | EnterClose(thread: Thread)
    | LeaveClose(thread: Thread)
    | Read(line: Line)
    | ReadPair(line1: Line, line2: Line)
    | LockReader
    | ProcessLine
    | UnlockReader
    | EndOfInput
    | LockEnding
    | UnlockEnding
    | SetCallback(on: bool)

  /** The state after a step, where the step can be taken */
  function Apply(s: State, e: Step): Option<State> {
    match e
    case Begin(t, call, tries) => if At(s, t) == Idle then Some(Move(s, t, Entering(call, tries))) else None
    case Enter(t) => Entered(s, t)
    case TryLock(t) => Tried(s, t)
    case WakeQueued(t) => QueueLeft(s, t)
    case WriteLine(t, result) => Written(s, t, result)
    case TestFinal(t) => Tested(s, t)
    case Wake(t) => Woken(s, t)
    case Expire(t) => Expired(s, t)
    case CleanUp(t) => CleanedUp(s, t)
    case Leave(t) =>
      if At(s, t).Leaving? then Some(Move(s, t, Idle).(command := Nobody)) else None
    case BeginClose(t) => if At(s, t) == Idle then Some(Move(s, t, Closing).(open := false)) else None
    case EnterClose(t) =>
      if At(s, t).Closing? && s.command == Nobody
      then Some(Move(s, t, ClosingIn).(command := Sender(t), readerClosed := true)) else None
    case LeaveClose(t) =>
      if At(s, t).ClosingIn? then Some(Move(s, t, Idle).(command := Nobody)) else None
    case Read(line) => if s.reader == Idling then Some(s.(reader := Holding(line))) else None
    case ReadPair(line1, line2) => if s.reader == Idling then Some(Note(s, Pair(line1, line2))) else None
    case LockReader =>
      if s.reader.Holding? && s.command == Nobody
      then Some(s.(reader := Inside(s.reader.line), command := Reader)) else None
    case ProcessLine => Processed(s)
    case UnlockReader => if s.reader.Handled? then Some(s.(reader := Idling, command := Nobody)) else None
    case EndOfInput =>
      if s.reader == Idling then Some(s.(reader := if s.callback && !s.readerClosed then Ending else Gone)) else None
    case LockEnding =>
      if s.reader.Ending? && s.command == Nobody
      then Some(s.(reader := EndingIn, command := Reader, readerClosed := true)) else None
    case UnlockEnding => if s.reader.EndingIn? then Some(s.(reader := Gone, command := Nobody)) else None
    case SetCallback(on) => Some(s.(callback := on))
  }

  function Entered(s: State, t: Thread): Option<State> {
    match At(s, t)
    case Entering(call, tries) =>
      if s.command == Nobody then Some(Move(s, t, Trying(call, tries)).(command := Sender(t))) else None
    case _ => None
  }

  /** pthread_mutex_trylock(requestmutex), and the wait that lets go of commandmutex */
  function Tried(s: State, t: Thread): Option<State> {
    match At(s, t)
    case Trying(call, tries) =>
      if s.request.None? then Some(Move(s, t, Granted(call, tries)).(request := Some(t)))
      else Some(Move(s, t, Queued(call, tries)).(command := Nobody))
    case _ => None
  }

  function QueueLeft(s: State, t: Thread): Option<State> {
    match At(s, t)
    case Queued(call, tries) =>
      if s.command == Nobody then Some(Move(s, t, Trying(call, tries)).(command := Sender(t))) else None
    case _ => None
  }

  /** The test of response, writeline, and the new response */
  function Written(s: State, t: Thread, result: WriteResult): Option<State> {
    match At(s, t)
    case Granted(call, tries) =>
      if s.slot.Some? then Some(Refused(s, t, call, tries, PENDING))
      else if result.NoMemory? then Some(Refused(s, t, call, tries, GENERIC))
      else if !s.open || s.readerClosed then Some(Refused(s, t, call, tries, CLOSED))
      else if result.WriteError? then Some(Refused(s, t, call, tries, TIMEOUT))
      else Some(Note(Move(s, t, Testing(call, tries)), Wrote(t, call)).(slot := Some(Fresh(call))))
    case _ => None
  }

  function Refused(s: State, t: Thread, call: Call, tries: nat, code: int): State {
    Note(Move(s, t, Ended(call, tries, Error(code))), Unwritten(t, code))
  }

  /** The test of the waiting loop and what follows it; reverseIntermediates turns the list. */
  function Tested(s: State, t: Thread): Option<State> {
    match At(s, t)
    case Testing(call, tries) =>
      if s.slot.None? then None
      else
        var r := s.slot.value.response;
        if r.final.None? && !s.readerClosed then Some(Move(s, t, Asleep(call, tries)).(command := Nobody))
        else if s.readerClosed then Some(Concluded(s, t, call, tries, Error(CLOSED)))
        else Some(Concluded(s, t, call, tries, Reply(r.(intermediates := Reversed(r.intermediates)))).(slot := None))
    case _ => None
  }

  function Concluded(s: State, t: Thread, call: Call, tries: nat, outcome: Outcome): State {
    Note(Move(s, t, Ended(call, tries, outcome)), Finished(t, outcome))
  }

  function Woken(s: State, t: Thread): Option<State> {
    match At(s, t)
    case Asleep(call, tries) =>
      if s.command == Nobody then Some(Move(s, t, Testing(call, tries)).(command := Sender(t))) else None
    case _ => None
  }

  /** The wait returns ETIMEDOUT, whatever stands in the slot by then. */
  function Expired(s: State, t: Thread): Option<State> {
    match At(s, t)
    case Asleep(call, tries) =>
      if s.command == Nobody && call.timed
      then Some(Concluded(s, t, call, tries, Error(TIMEOUT)).(command := Sender(t))) else None
    case _ => None
  }

  /** clearPendingCommand, the broadcast, the release of requestmutex; at_handshake may go round again. */
  function CleanedUp(s: State, t: Thread): Option<State> {
    match At(s, t)
    case Ended(call, tries, outcome) =>
      Some(Move(s, t, if outcome.Error? && tries > 0 then Trying(call, tries - 1) else Leaving)
        .(slot := None, request := None))
    case _ => None
  }

  function Processed(s: State): Option<State> {
    match s.reader
    case Inside(line) =>
      Some(Note(s, Heard(line, Route(s.slot, line)))
        .(reader := Handled, slot := if s.slot.Some? then Some(Hear(s.slot.value, line)) else None))
    case _ => None
  }

  // -------------------------------------------------- a channel without threads

  /** The channel as its users are to see it: free, or serving one command. */
  datatype Status = Free | Busy(thread: Thread, pending: Pending) | Broken

  /** One event on such a channel. Broken means that it cannot happen there. */
  function Advance(status: Status, e: Event): Status {
    match e
    case Wrote(t, call) => if status.Free? then Busy(t, Fresh(call)) else Broken
    case Unwritten(t, code) => if status.Free? && code != PENDING then Free else Broken
    case Pair(line1, line2) => status
    case Heard(line, destination) =>
      (match status
       case Free => if destination == Unsolicited then Free else Broken
       case Busy(t, p) => if destination == Route(Some(p), line) then Busy(t, Hear(p, line)) else Broken
       case Broken => Broken)
    case Finished(t, outcome) =>
      if status.Busy? && status.thread == t && Fair(status.pending, outcome) then Free else Broken
  }

  /** A reply is just what was heard since the command was written, and it has a final response. */
  predicate Fair(p: Pending, outcome: Outcome) {
    match outcome
    case Error(code) => code == CLOSED || (code == TIMEOUT && p.call.timed)
    case Reply(r) =>
      r.final.Some? && r == p.response.(intermediates := Reversed(p.response.intermediates))
  }

  function Replay(log: seq<Event>): Status
    decreases log
  {
    if log == [] then Free else Advance(Replay(log[..|log| - 1]), log[|log| - 1])
  }

  // --------------------------------------------------------------- the invariant

  predicate HasCommand(p: Place) {
    p.Trying? || p.Granted? || p.Testing? || p.Ended? || p.Leaving? || p.ClosingIn?
  }

  predicate HasRequest(p: Place) { p.Granted? || p.Testing? || p.Asleep? || p.Ended? }

  predicate ReaderHasCommand(r: Reading) { r.Inside? || r.Handled? || r.EndingIn? }

  ghost predicate Exclusive(s: State) {
    && (forall t: Thread :: HasCommand(At(s, t)) <==> s.command == Sender(t))
    && (ReaderHasCommand(s.reader) <==> s.command == Reader)
    && (forall t: Thread :: HasRequest(At(s, t)) <==> s.request == Some(t))
  }

  /** The slot is what the replayed channel has; it is empty unless one thread owns requestmutex
      and is waiting for its reply, or has just given up and is about to clear it. */
  predicate Faithful(s: State) {
    var owner := if s.request.Some? then At(s, s.request.value) else Idle;
    match Replay(s.log)
    case Broken => false
    case Busy(t, p) => s.request == Some(t) && (owner.Testing? || owner.Asleep?) && owner.call == p.call && s.slot == Some(p)
    case Free => !owner.Testing? && !owner.Asleep? && (s.slot.Some? ==> owner.Ended?)
  }

  ghost predicate Inv(s: State) { Exclusive(s) && Faithful(s) }

  lemma InitialInv(s: State)
    requires Initial(s)
    ensures Inv(s)
  {
  }

  lemma NoteReplays(log: seq<Event>, e: Event)
    ensures Replay(log + [e]) == Advance(Replay(log), e)
  {
    assert (log + [e])[..|log|] == log;
  }

  /** One sender moves, taking or giving back mutexes. */
  lemma Shift(s: State, s': State, t: Thread)
    requires Exclusive(s) && s'.places == s.places[t := At(s', t)] && s'.reader == s.reader
    requires HasCommand(At(s', t)) <==> s'.command == Sender(t)
    requires s'.command == s.command || (s.command == Nobody && s'.command == Sender(t)) || (s.command == Sender(t) && s'.command == Nobody)
    requires HasRequest(At(s', t)) <==> s'.request == Some(t)
    requires s'.request == s.request || (s.request == None && s'.request == Some(t)) || (s.request == Some(t) && s'.request == None)
    ensures Exclusive(s')
  {
    hide HasCommand, HasRequest;
    assert forall u: Thread :: u != t ==> At(s', u) == At(s, u);
  }

  lemma Mine(s: State, t: Thread)
    requires Exclusive(s)
    ensures HasCommand(At(s, t)) <==> s.command == Sender(t)
    ensures HasRequest(At(s, t)) <==> s.request == Some(t)
    ensures ReaderHasCommand(s.reader) <==> s.command == Reader
  {
  }

  /** A sender that does not own requestmutex and notes nothing leaves the channel as it is. */
  lemma Aside(s: State, s': State, t: Thread)
    requires Faithful(s) && s'.places == s.places[t := At(s', t)] && s.request != Some(t)
    requires s'.log == s.log && s'.slot == s.slot && s'.request == s.request
    ensures Faithful(s')
  {
    hide Replay;
    assert forall u: Thread :: u != t ==> At(s', u) == At(s, u);
  }

  lemma TriedKeeps(s: State, t: Thread)
    requires Inv(s) && Tried(s, t).Some?
    ensures Inv(Tried(s, t).value)
  {
    hide Replay, Exclusive;
    Mine(s, t);
    Shift(s, Tried(s, t).value, t);
  }

  lemma WrittenKeeps(s: State, t: Thread, result: WriteResult)
    requires Inv(s) && Written(s, t, result).Some?
    ensures Inv(Written(s, t, result).value) && s.slot.None?
  {
    hide Replay, Exclusive;
    Mine(s, t);
    var s' := Written(s, t, result).value;
    Shift(s, s', t);
    NoteReplays(s.log, s'.log[|s.log|]);
  }

  lemma TestedKeeps(s: State, t: Thread)
    requires Inv(s) && Tested(s, t).Some?
    ensures Inv(Tested(s, t).value)
  {
    hide Replay, Exclusive, Reversed;
    Mine(s, t);
    var s' := Tested(s, t).value;
    Shift(s, s', t);
    if s'.log != s.log {
      NoteReplays(s.log, s'.log[|s.log|]);
    }
  }

  lemma WokenKeeps(s: State, t: Thread)
    requires Inv(s) && Woken(s, t).Some?
    ensures Inv(Woken(s, t).value)
  {
    hide Replay, Exclusive;
    Mine(s, t);
    Shift(s, Woken(s, t).value, t);
  }

  lemma ExpiredKeeps(s: State, t: Thread)
    requires Inv(s) && Expired(s, t).Some?
    ensures Inv(Expired(s, t).value)
  {
    hide Replay, Exclusive;
    Mine(s, t);
    var s' := Expired(s, t).value;
    Shift(s, s', t);
    NoteReplays(s.log, s'.log[|s.log|]);
  }

  lemma CleanedUpKeeps(s: State, t: Thread)
    requires Inv(s) && CleanedUp(s, t).Some?
    ensures Inv(CleanedUp(s, t).value)
  {
    hide Replay, Exclusive;
    Mine(s, t);
    Shift(s, CleanedUp(s, t).value, t);
  }

  lemma ProcessedKeeps(s: State)
    requires Inv(s) && Processed(s).Some?
    ensures Inv(Processed(s).value)
  {
    hide Replay, Route, Hear, HasCommand, HasRequest;
    var s' := Processed(s).value;
    assert forall u: Thread :: At(s', u) == At(s, u);
    if s.request.Some? {
      Mine(s, s.request.value);
    }
    assert Exclusive(s');
    HeardKeeps(s);
  }

  lemma HeardKeeps(s: State)
    requires Faithful(s) && Processed(s).Some?
    requires s.request.Some? ==> !HasCommand(At(s, s.request.value))
    ensures Faithful(Processed(s).value)
  {
    hide Replay, Finals, Fits;
    var s' := Processed(s).value;
    NoteReplays(s.log, s'.log[|s.log|]);
  }

  predicate IsOuter(e: Step) {
    e.Begin? || e.Enter? || e.WakeQueued? || e.Leave? || e.BeginClose? || e.EnterClose? || e.LeaveClose?
  }

  /** Begin, Enter, WakeQueued, Leave and the steps of at_close */
  lemma OuterKeeps(s: State, e: Step, t: Thread)
    requires Inv(s) && Apply(s, e).Some?
    requires IsOuter(e) && e.thread == t
    ensures Inv(Apply(s, e).value)
  {
    hide Faithful, Exclusive;
    Mine(s, t);
    Shift(s, Apply(s, e).value, t);
    Aside(s, Apply(s, e).value, t);
  }

  /** The steps of the reader outside processLine, and the change of a callback */
  lemma ReaderKeeps(s: State, e: Step)
    requires Inv(s) && Apply(s, e).Some?
    requires e.Read? || e.ReadPair? || e.LockReader? || e.UnlockReader? || e.EndOfInput? || e.LockEnding? || e.UnlockEnding? || e.SetCallback?
    ensures Inv(Apply(s, e).value)
  {
    hide Replay, Exclusive, Faithful;
    var s' := Apply(s, e).value;
    Mine(s, 0);
    ReaderShift(s, s');
    if e.ReadPair? {
      NoteReplays(s.log, s'.log[|s.log|]);
    }
    assert Replay(s'.log) == Replay(s.log);
    SameChannel(s, s');
  }

  /** The reader moves, taking or giving back commandmutex. */
  lemma ReaderShift(s: State, s': State)
    requires Exclusive(s) && s'.places == s.places && s'.request == s.request
    requires ReaderHasCommand(s'.reader) <==> s'.command == Reader
    requires s'.command == s.command || (s.command == Nobody && s'.command == Reader) || (s.command == Reader && s'.command == Nobody)
    ensures Exclusive(s')
  {
    hide HasCommand, HasRequest;
    assert forall u: Thread :: At(s', u) == At(s, u);
  }

  lemma SameChannel(s: State, s': State)
    requires Faithful(s) && s'.places == s.places && s'.request == s.request && s'.slot == s.slot && Replay(s'.log) == Replay(s.log)
    ensures Faithful(s')
  {
  }

  lemma StepKeeps(s: State, e: Step)
    requires Inv(s) && Apply(s, e).Some?
    ensures Inv(Apply(s, e).value)
  {
    hide Inv, Entered, Tried, QueueLeft, Written, Tested, Woken, Expired, CleanedUp, Processed;
    match e {
      case Begin(t, call, tries) => OuterKeeps(s, e, t);
      case Enter(t) => OuterKeeps(s, e, t);
      case TryLock(t) => TriedKeeps(s, t);
      case WakeQueued(t) => OuterKeeps(s, e, t);
      case WriteLine(t, result) => WrittenKeeps(s, t, result);
      case TestFinal(t) => TestedKeeps(s, t);
      case Wake(t) => WokenKeeps(s, t);
      case Expire(t) => ExpiredKeeps(s, t);
      case CleanUp(t) => CleanedUpKeeps(s, t);
      case Leave(t) => OuterKeeps(s, e, t);
      case BeginClose(t) => OuterKeeps(s, e, t);
      case EnterClose(t) => OuterKeeps(s, e, t);
      case LeaveClose(t) => OuterKeeps(s, e, t);
      case ProcessLine => ProcessedKeeps(s);
      case _ => ReaderKeeps(s, e);
    }
  }

  // -------------------------------------------------------------------- all runs

  /** The state after a run, if every step of it can be taken */
  function Run(s: State, steps: seq<Step>): Option<State>
    decreases steps
  {
    if steps == [] then Some(s)
    else
      var next := Apply(s, steps[0]);
      if next.None? then None else Run(next.value, steps[1..])
  }

  ghost predicate Reachable(s: State) {
    exists start: State, steps :: Initial(start) && Run(start, steps) == Some(s)
  }

  lemma {:induction false} RunKeeps(s: State, steps: seq<Step>)
    requires Inv(s) && Run(s, steps).Some?
    ensures Inv(Run(s, steps).value)
    decreases steps
  {
    hide Inv, Apply;
    if steps != [] {
      StepKeeps(s, steps[0]);
      RunKeeps(Apply(s, steps[0]).value, steps[1..]);
    }
  }

  lemma ReachableInv(s: State)
    requires Reachable(s)
    ensures Inv(s)
  {
    hide Inv, Run;
    var start: State, steps :| Initial(start) && Run(start, steps) == Some(s);
    InitialInv(start);
    RunKeeps(start, steps);
  }

  /** Exclusion, in every interleaving: the slot is in use only while one thread owns
      requestmutex and is inside its command, at most one thread is, and while the reader or
      another thread holds commandmutex that thread is asleep in its wait. */
  lemma CommandExclusion(s: State, t: Thread, u: Thread)
    requires Reachable(s)
    ensures s.slot.Some? ==> s.request.Some? && (At(s, s.request.value).Testing? || At(s, s.request.value).Asleep? || At(s, s.request.value).Ended?)
    ensures HasRequest(At(s, t)) && HasRequest(At(s, u)) ==> t == u
    ensures s.slot.Some? && s.command != Sender(s.request.value) ==> At(s, s.request.value).Asleep?
    ensures HasCommand(At(s, t)) && HasCommand(At(s, u)) ==> t == u
  {
    hide Replay, Reachable;
    ReachableInv(s);
    Mine(s, t);
    Mine(s, u);
    if s.request.Some? {
      Mine(s, s.request.value);
    }
  }

  /** A sender that got requestmutex always finds the slot empty, so that
      AT_ERROR_COMMAND_PENDING is never returned. */
  lemma NeverPending(s: State, t: Thread)
    requires Reachable(s)
    ensures At(s, t).Granted? ==> s.slot.None?
    ensures forall i, u :: 0 <= i < |s.log| ==> s.log[i] != Unwritten(u, PENDING) && s.log[i] != Finished(u, Error(PENDING))
  {
    hide Reachable, Replay;
    ReachableInv(s);
    Mine(s, t);
    forall i, u | 0 <= i < |s.log|
      ensures s.log[i] != Unwritten(u, PENDING) && s.log[i] != Finished(u, Error(PENDING))
    {
      ReplaySound(s.log, i);
    }
  }

  // -------------------------------------------------- what a sound log says

  lemma {:induction false} ReplaySound(log: seq<Event>, i: nat)
    requires Replay(log) != Broken && i < |log|
    ensures Replay(log[..i]) != Broken && Advance(Replay(log[..i]), log[i]) != Broken
    decreases |log|
  {
    var n := |log| - 1;
    if i < n {
      ReplaySound(log[..n], i);
      assert log[..n][..i] == log[..i];
    }
  }

  /** The lines among the events that went through processLine */
  function Lines(log: seq<Event>): seq<Line>
    decreases log
  {
    if log == [] then []
    else
      var n := |log| - 1;
      Lines(log[..n]) + if log[n].Heard? then [log[n].line] else []
  }

  /** No command begins or ends among the events. */
  predicate Quiet(log: seq<Event>) {
    forall i :: 0 <= i < |log| ==> log[i].Heard? || log[i].Pair?
  }

  /** A busy channel has been busy since the last Wrote, which its own thread wrote, and its slot
      is what was heard since. */
  lemma {:induction false} BusySince(log: seq<Event>) returns (w: nat)
    requires Replay(log).Busy?
    ensures w < |log| && Quiet(log[w + 1..])
    ensures var b := Replay(log); log[w] == Wrote(b.thread, b.pending.call) && b.pending == HearAll(Fresh(b.pending.call), Lines(log[w + 1..]))
    decreases |log|
  {
    hide Hear, Route, HearAll, Lines, Fair;
    var n := |log| - 1;
    if log[n].Wrote? {
      w := n;
      assert log[n + 1..] == [];
      NothingHeard(Fresh(log[n].call));
    } else {
      w := BusySince(log[..n]);
      assert log[w + 1..] == log[..n][w + 1..] + [log[n]];
      WindowGrows(Replay(log[..n]).pending, log[..n][w + 1..], log[n]);
    }
  }

  lemma NothingHeard(p: Pending)
    ensures HearAll(p, Lines([])) == p
  {
  }

  lemma WindowGrows(p: Pending, window: seq<Event>, e: Event)
    requires p == HearAll(Fresh(p.call), Lines(window)) && (e.Heard? || e.Pair?) && Quiet(window)
    ensures var q := if e.Heard? then Hear(p, e.line) else p;
      q.call == p.call && q == HearAll(Fresh(p.call), Lines(window + [e]))
    ensures Quiet(window + [e])
  {
    hide HearAll, Route, Hear;
    assert (window + [e])[..|window|] == window;
    assert Lines(window) + [] == Lines(window);
    if e.Heard? {
      HearMore(Fresh(p.call), Lines(window), e.line);
      HearSameCall(p, e.line);
    }
  }

  lemma HearSameCall(p: Pending, line: Line)
    ensures Hear(p, line).call == p.call
  {
  }

  /** Every reply of every run belongs to its own command: between the write of that command by
      the same thread and the reply nothing was written and no other command finished, and the
      reply holds just what those lines are due, in order of arrival. */
  lemma ReplyIsOwn(s: State, j: nat) returns (w: nat)
    requires Reachable(s) && j < |s.log| && s.log[j].Finished?
    ensures w < j && s.log[w].Wrote? && s.log[w].thread == s.log[j].thread && Quiet(s.log[w + 1..j])
    ensures s.log[j].outcome.Error? ==> s.log[j].outcome.code == CLOSED || (s.log[j].outcome.code == TIMEOUT && s.log[w].call.timed)
    ensures s.log[j].outcome.Reply? ==>
      var r, call, lines := s.log[j].outcome.response, s.log[w].call, Lines(s.log[w + 1..j]);
      && r.intermediates == Due(call, lines)
      && r.final == LastFinal(lines) && r.final.Some? && r.success == Succeeds(r.final.value)
  {
    hide Reachable;
    ReachableInv(s);
    ReplaySound(s.log, j);
    var before := s.log[..j];
    w := BusySince(before);
    assert before[w + 1..] == s.log[w + 1..j];
    ReplyIsDue(s.log[w].call, Lines(s.log[w + 1..j]));
  }

  /** Every line that went through processLine went to one place: to the command that was busy,
      by its kind, or else to the unsolicited handler. */
  lemma LineIsRouted(s: State, i: nat)
    requires Reachable(s) && i < |s.log| && s.log[i].Heard?
    ensures var b := Replay(s.log[..i]);
      s.log[i].destination == Route(if b.Busy? then Some(b.pending) else None, s.log[i].line)
  {
    hide Reachable;
    ReachableInv(s);
    ReplaySound(s.log, i);
  }

  // ------------------------------------------------------------------- wrappers

  /** Single-line and numeric commands whose caller passed an out-pointer */
  predicate NeedsOne(call: Call) { (call.kind == SingleLine || call.kind == Numeric) && call.wants }

  /** The test after a single-line or numeric command */
  function Checked(call: Call, outcome: Outcome): Outcome {
    if NeedsOne(call) && outcome.Reply? && outcome.response.success && outcome.response.intermediates == []
    then Error(INVALID_RESPONSE) else outcome
  }

  /** The shape of what a caller gets, in every run. */
  lemma ReplyShape(s: State, j: nat, w: nat)
    requires Reachable(s) && j < |s.log| && s.log[j].Finished?
    requires w < j && s.log[w].Wrote? && Quiet(s.log[w + 1..j])
    ensures var call, got := s.log[w].call, Checked(s.log[w].call, s.log[j].outcome);
      got.Reply? ==>
      && (call.kind == NoResult ==> got.response.intermediates == [])
      && (call.kind != MultiLine ==> |got.response.intermediates| <= 1)
      && (NeedsOne(call) && got.response.success ==> |got.response.intermediates| == 1)
      && (forall k :: 0 <= k < |got.response.intermediates| ==> Fits(call, got.response.intermediates[k]))
  {
    hide Reachable;
    var v := ReplyIsOwn(s, j);
    QuietBetween(s.log, v + 1, j);
    QuietBetween(s.log, w + 1, j);
    assert v == w;
    var call := s.log[w].call;
    AllFit(call, Takeable(call.pdu, Lines(s.log[w + 1..j])));
  }

  /** AT_ERROR_INVALID_RESPONSE is what a caller with an out-pointer gets exactly where the final
      response was a good one and no line fitted; any other outcome it gets as it is. */
  lemma InvalidExactly(s: State, j: nat) returns (w: nat)
    requires Reachable(s) && j < |s.log| && s.log[j].Finished?
    ensures w < j && s.log[w].Wrote? && s.log[w].thread == s.log[j].thread && Quiet(s.log[w + 1..j])
    ensures var call, lines, outcome := s.log[w].call, Lines(s.log[w + 1..j]), s.log[j].outcome;
      && (Checked(call, outcome) == Error(INVALID_RESPONSE)
          <==> call.kind in {SingleLine, Numeric} && call.wants && outcome.Reply?
               && LastFinal(lines).Some? && Succeeds(LastFinal(lines).value) && Due(call, lines) == [])
      && (Checked(call, outcome) == Error(INVALID_RESPONSE) || Checked(call, outcome) == outcome)
  {
    hide Reachable, Due, LastFinal, Lines, Succeeds;
    w := ReplyIsOwn(s, j);
  }

  lemma QuietBetween(log: seq<Event>, a: nat, j: nat)
    requires a <= j <= |log| && Quiet(log[a..j])
    ensures forall i :: a <= i < j ==> log[i].Heard? || log[i].Pair?
  {
    forall i | a <= i < j
      ensures log[i].Heard? || log[i].Pair?
    {
      assert log[a..j][i - a] == log[i];
    }
  }

  lemma {:induction false} AllFit(call: Call, lines: seq<Line>)
    ensures forall k :: 0 <= k < |Fitting(call, lines)| ==> Fits(call, Fitting(call, lines)[k])
    ensures call.kind == NoResult ==> Fitting(call, lines) == []
    decreases lines
  {
    if lines != [] {
      AllFit(call, lines[1..]);
    }
  }
}
