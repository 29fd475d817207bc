/** The request queue as values: what enqueueRILEvent, onRequest and a turn of queueRunner do to
    it, and what that means for every run. */
module RilSchedule {

  // ---------------------------------------------------------------------- time

  const BILLION: nat := 1000000000

  /** struct timespec */
  datatype Time = Time(sec: nat, nsec: nat)

  /** timespec_cmp(a, b, <) */
  predicate Before(a: Time, b: Time) {
    if a.sec == b.sec then a.nsec < b.nsec else a.sec < b.sec
  }

  function Nanoseconds(t: Time): nat { t.sec * BILLION + t.nsec }

  /** A time as clocks and constants give it */
  predicate Normal(t: Time) { t.nsec < BILLION }

  /** The absolute time enqueueRILEvent computes */
  function Deadline(now: Time, relative: Time): Time {
    var nsec := now.nsec + relative.nsec;
    if nsec > BILLION then Time(now.sec + relative.sec + 1, nsec - BILLION)
    else Time(now.sec + relative.sec, nsec)
  }

  /** The deadline is the instant it should be, though a full billion of nanoseconds is kept. */
  lemma DeadlineIsSum(now: Time, relative: Time)
    requires Normal(now) && Normal(relative)
    ensures Nanoseconds(Deadline(now, relative)) == Nanoseconds(now) + Nanoseconds(relative)
    ensures Deadline(now, relative).nsec <= BILLION
    ensures Normal(Deadline(now, relative)) <==> now.nsec + relative.nsec != BILLION
  {
  }

  /** The comparison is that of instants, except where a full billion meets the next second. */
  lemma BeforeExactly(a: Time, b: Time)
    requires a.nsec <= BILLION && b.nsec <= BILLION
    ensures Before(a, b) <==> Nanoseconds(a) < Nanoseconds(b) || (Nanoseconds(a) == Nanoseconds(b) && a.nsec == BILLION && b.nsec == 0)
  {
  }

  // ----------------------------------------------------------------- the queue

  /** An event, with the number of events queued before it */
  datatype Event = Event(number: nat, time: Time)

  /** Behind all that are not later, before the first that is */
  function Insert(events: seq<Event>, e: Event): (r: seq<Event>)
    ensures |r| == |events| + 1
    decreases events
  {
    if events == [] then [e]
    else if Before(e.time, events[0].time) then [e] + events
    else [events[0]] + Insert(events[1..], e)
  }

  datatype Queue = Queue(events: seq<Event>, requests: seq<nat>, closed: nat)

  datatype Step =
    /** enqueueRILEvent */
    | Enqueue(time: Time)
    /** onRequest, in a radio state that lets requests in */
    | Request(token: nat)
    /** the part of a turn of queueRunner behind its waits, at a reading of the clock */
    | Turn(now: Time)
    /** signalCloseQueues, and the assignment before the dispatch loop */
    | Close(flag: nat)
    | Reopen

  /** What was queued, fired and dispatched so far, in order */
  datatype History = History(queued: seq<Event>, submitted: seq<nat>, fired: seq<Event>, dispatched: seq<nat>)

  datatype State = State(queue: Queue, history: History)

  const START := State(Queue([], [], 1), History([], [], [], []))

  predicate Due(q: Queue, now: Time) { q.events != [] && Before(q.events[0].time, now) }

  function Take(s: State, now: Time): State {
    var q, h := s.queue, s.history;
    var q1, h1 :=
      if Due(q, now) then q.(events := q.events[1..]) else q,
      if Due(q, now) then h.(fired := h.fired + [q.events[0]]) else h;
    if q.requests != []
    then State(q1.(requests := q.requests[1..]), h1.(dispatched := h.dispatched + [q.requests[0]]))
    else State(q1, h1)
  }

  function Apply(s: State, e: Step): State {
    var q, h := s.queue, s.history;
    match e
    case Enqueue(time) =>
      var event := Event(|h.queued|, time);
      State(q.(events := Insert(q.events, event)), h.(queued := h.queued + [event]))
    case Request(token) => State(q.(requests := q.requests + [token]), h.(submitted := h.submitted + [token]))
    case Turn(now) => if q.closed != 0 then s else Take(s, now)
    case Close(flag) => s.(queue := q.(closed := flag))
    case Reopen => s.(queue := q.(closed := 0))
  }

  function Run(s: State, steps: seq<Step>): State
    decreases steps
  {
    if steps == [] then s else Run(Apply(s, steps[0]), steps[1..])
  }

  // ------------------------------------------------------------- the invariant

  /** Earlier in time, or at the same time and queued earlier */
  predicate Ahead(a: Event, b: Event) {
    Before(a.time, b.time) || (a.time == b.time && a.number < b.number)
  }

  ghost predicate Sorted(events: seq<Event>) {
    forall i, j :: 0 <= i < j < |events| ==> Ahead(events[i], events[j])
  }

  ghost predicate Numbered(events: seq<Event>) {
    forall i :: 0 <= i < |events| ==> events[i].number == i
  }

  ghost predicate Inv(s: State) {
    var q, h := s.queue, s.history;
    && Sorted(q.events) && Numbered(h.queued)
    && (forall i :: 0 <= i < |q.events| ==> q.events[i].number < |h.queued|)
    && multiset(h.fired) + multiset(q.events) == multiset(h.queued)
    && h.dispatched + q.requests == h.submitted
  }

  lemma AheadOrder(a: Event, b: Event, c: Event)
    ensures Ahead(a, b) && Ahead(b, c) ==> Ahead(a, c)
    ensures !Before(b.time, a.time) && a.number < b.number ==> Ahead(a, b)
  {
  }

  /** Inserting keeps the order, and the contents. */
  lemma {:induction false} InsertKeeps(events: seq<Event>, e: Event)
    requires Sorted(events) && forall i :: 0 <= i < |events| ==> events[i].number < e.number
    ensures Sorted(Insert(events, e)) && multiset(Insert(events, e)) == multiset(events) + multiset{e}
    decreases events
  {
    hide Ahead, Before;
    var r := Insert(events, e);
    if events == [] {
    } else if Before(e.time, events[0].time) {
      forall j | 0 <= j < |events|
        ensures Ahead(e, events[j])
      {
        AheadNow(e, events[0]);
        AheadOrder(e, events[0], events[j]);
      }
      assert multiset([e] + events) == multiset{e} + multiset(events);
    } else {
      var rest := events[1..];
      InsertKeeps(rest, e);
      assert events == [events[0]] + rest;
      AheadOrder(events[0], e, e);
      forall j | 0 <= j < |Insert(rest, e)|
        ensures Ahead(events[0], Insert(rest, e)[j])
      {
        assert Insert(rest, e)[j] in multiset(Insert(rest, e));
        assert Insert(rest, e)[j] == e || Insert(rest, e)[j] in rest;
      }
    }
  }

  lemma AheadNow(a: Event, b: Event)
    ensures Before(a.time, b.time) ==> Ahead(a, b)
  {
  }

  lemma StepKeeps(s: State, e: Step)
    requires Inv(s)
    ensures Inv(Apply(s, e))
  {
    hide Ahead, Before, Insert;
    var q, h := s.queue, s.history;
    match e {
      case Enqueue(time) =>
        var event := Event(|h.queued|, time);
        InsertKeeps(q.events, event);
        EventsBelow(q.events, event);
      case Request(token) =>
        assert h.dispatched + (q.requests + [token]) == h.dispatched + q.requests + [token];
      case Turn(now) => TakeKeeps(s, now);
      case Close(flag) =>
      case Reopen =>
    }
  }

  lemma EventsBelow(events: seq<Event>, e: Event)
    requires Sorted(events) && forall i :: 0 <= i < |events| ==> events[i].number < e.number
    ensures forall i :: 0 <= i < |Insert(events, e)| ==> Insert(events, e)[i].number <= e.number
  {
    InsertKeeps(events, e);
    forall i | 0 <= i < |Insert(events, e)|
      ensures Insert(events, e)[i].number <= e.number
    {
      assert Insert(events, e)[i] in multiset(Insert(events, e));
      assert Insert(events, e)[i] == e || Insert(events, e)[i] in events;
    }
  }

  lemma TakeKeeps(s: State, now: Time)
    requires Inv(s)
    ensures Inv(Take(s, now))
  {
    hide Ahead, Before;
    var q, h := s.queue, s.history;
    if Due(q, now) {
      assert q.events == [q.events[0]] + q.events[1..];
    }
    if q.requests != [] {
      assert h.dispatched + [q.requests[0]] + q.requests[1..] == h.dispatched + q.requests;
    }
  }

  lemma {:induction false} RunKeeps(s: State, steps: seq<Step>)
    requires Inv(s)
    ensures Inv(Run(s, steps))
    decreases steps
  {
    hide Inv, Apply;
    if steps != [] {
      StepKeeps(s, steps[0]);
      RunKeeps(Apply(s, steps[0]), steps[1..]);
    }
  }

  // ------------------------------------------------------------- what runs do

  /** Exactly once, in every run, whatever is closed and reopened in between: what fired and what
      is still queued are together just what was queued, no event is there twice, and requests
      are dispatched in the order in which they came. */
  lemma ExactlyOnce(steps: seq<Step>)
    ensures var s := Run(START, steps);
      && multiset(s.history.fired) + multiset(s.queue.events) == multiset(s.history.queued)
      && (forall e :: multiset(s.history.fired)[e] + multiset(s.queue.events)[e] <= 1)
      && s.history.submitted == s.history.dispatched + s.queue.requests
  {
    hide Run;
    RunKeeps(START, steps);
    var s := Run(START, steps);
    forall e
      ensures multiset(s.history.fired)[e] + multiset(s.queue.events)[e] <= 1
    {
      OnlyOnce(s.history.queued, e);
      assert (multiset(s.history.fired) + multiset(s.queue.events))[e] <= 1;
    }
  }

  lemma {:induction false} OnlyOnce(events: seq<Event>, e: Event)
    requires Numbered(events)
    ensures multiset(events)[e] <= 1
    decreases events
  {
    if events != [] {
      var n := |events| - 1;
      OnlyOnce(events[..n], e);
      assert events == events[..n] + [events[n]];
      if e == events[n] {
        assert e !in events[..n];
      }
    }
  }

  ghost predicate Kept(events: seq<Event>) {
    forall i :: 0 <= i < |events| ==> events[i].time.nsec <= BILLION
  }

  /** The times of a run are deadlines. */
  predicate Deadlines(steps: seq<Step>) {
    forall i :: 0 <= i < |steps| && steps[i].Enqueue? ==> steps[i].time.nsec <= BILLION
  }

  lemma {:induction false} TimesKept(s: State, steps: seq<Step>)
    requires Kept(s.history.queued) && Deadlines(steps)
    ensures Kept(Run(s, steps).history.queued)
    decreases steps
  {
    hide Insert, Due;
    if steps != [] {
      assert steps[0].Enqueue? ==> steps[0].time.nsec <= BILLION;
      assert Kept(Apply(s, steps[0]).history.queued);
      TimesKept(Apply(s, steps[0]), steps[1..]);
    }
  }

  /** e is earlier than r, or at the same instant and queued earlier, or at the same instant but
      kept with a full billion of nanoseconds where r has the next second. */
  predicate InTurn(e: Event, r: Event) {
    || Nanoseconds(e.time) < Nanoseconds(r.time)
    || (Nanoseconds(e.time) == Nanoseconds(r.time) && (e.number < r.number || (e.time.nsec == BILLION && r.time.nsec == 0)))
  }

  lemma AheadIsInTurn(e: Event, r: Event)
    requires Ahead(e, r) && e.time.nsec <= BILLION && r.time.nsec <= BILLION
    ensures InTurn(e, r)
  {
    BeforeExactly(e.time, r.time);
  }

  /** The first event of the queue, at the end of any run, goes before all the others. */
  lemma FirstIsInTurn(steps: seq<Step>, r: Event)
    requires Deadlines(steps) && Run(START, steps).queue.events != [] && r in Run(START, steps).queue.events[1..]
    ensures InTurn(Run(START, steps).queue.events[0], r) && Run(START, steps).queue.events[0].time.nsec <= BILLION
  {
    hide Run, InTurn, Ahead;
    RunKeeps(START, steps);
    TimesKept(START, steps);
    var s := Run(START, steps);
    var events := s.queue.events;
    var j :| 1 <= j < |events| && events[j] == r;
    WasQueued(s, 0);
    WasQueued(s, j);
    AheadIsInTurn(events[0], events[j]);
  }

  lemma WasQueued(s: State, i: nat)
    requires Inv(s) && i < |s.queue.events|
    ensures s.queue.events[i] in s.history.queued
  {
    assert s.queue.events[i] in multiset(s.queue.events);
    assert s.queue.events[i] in multiset(s.history.fired) + multiset(s.queue.events);
    assert s.queue.events[i] in multiset(s.history.queued);
  }

  /** An open queue fires an event at a turn exactly when some queued event is in time. It fires
      the first, which goes before everything else that is queued: earliest first, ties in the
      order of queueing but for a kept billion. It dispatches the first request exactly when there
      is one. A closed queue does nothing. */
  lemma FiresInOrder(steps: seq<Step>, now: Time)
    requires Normal(now) && Deadlines(steps)
    ensures var s := Run(START, steps);
      var t := Apply(s, Turn(now));
      && (if s.queue.closed == 0 && exists e :: e in s.queue.events && InTime(e.time, now)
          then
            && s.queue.events != [] && InTime(s.queue.events[0].time, now)
            && t.history.fired == s.history.fired + [s.queue.events[0]]
            && t.queue.events == s.queue.events[1..]
            && forall r :: r in t.queue.events ==> InTurn(s.queue.events[0], r)
          else t.history.fired == s.history.fired && t.queue.events == s.queue.events)
      && (if s.queue.closed == 0 && s.queue.requests != []
          then
            && t.history.dispatched == s.history.dispatched + [s.queue.requests[0]]
            && t.queue.requests == s.queue.requests[1..]
          else t.history.dispatched == s.history.dispatched && t.queue.requests == s.queue.requests)
      && t.history.queued == s.history.queued && t.history.submitted == s.history.submitted
      && t.queue.closed == s.queue.closed
  {
    hide Run, InTurn, InTime, Deadlines;
    var s := Run(START, steps);
    if s.queue.events != [] {
      DueExactly(steps, now);
      forall r | r in s.queue.events[1..]
        ensures InTurn(s.queue.events[0], r)
      {
        FirstIsInTurn(steps, r);
      }
    }
  }

  /** The first event is due exactly when some event is in time. */
  lemma DueExactly(steps: seq<Step>, now: Time)
    requires Normal(now) && Deadlines(steps) && Run(START, steps).queue.events != []
    ensures var events := Run(START, steps).queue.events;
      && (Due(Run(START, steps).queue, now) <==> InTime(events[0].time, now))
      && (Due(Run(START, steps).queue, now) <==> exists e :: e in events && InTime(e.time, now))
  {
    hide Run, InTime, Deadlines, Before, Ahead;
    RunKeeps(START, steps);
    TimesKept(START, steps);
    var s := Run(START, steps);
    var events := s.queue.events;
    WasQueued(s, 0);
    BeforeIsInTime(events[0].time, now);
    assert events[0] in events;
    forall e | e in events && InTime(e.time, now)
      ensures Due(s.queue, now)
    {
      var j :| 0 <= j < |events| && events[j] == e;
      WasQueued(s, j);
      BeforeIsInTime(e.time, now);
      if j > 0 {
        EarlierIsDue(events[0], e, now);
      }
    }
  }

  lemma EarlierIsDue(a: Event, b: Event, now: Time)
    requires Ahead(a, b) && Before(b.time, now)
    ensures Before(a.time, now)
  {
  }

  /** Not before the deadline, and just at it only where a full billion was kept */
  predicate InTime(deadline: Time, now: Time) {
    Nanoseconds(deadline) < Nanoseconds(now) || (Nanoseconds(deadline) == Nanoseconds(now) && deadline.nsec == BILLION)
  }

  lemma BeforeIsInTime(deadline: Time, now: Time)
    requires deadline.nsec <= BILLION && Normal(now)
    ensures Before(deadline, now) <==> InTime(deadline, now)
  {
    BeforeExactly(deadline, now);
  }

  // ----------------------------------------------------------- nothing is left

  function Turns(times: seq<Time>): seq<Step>
    decreases times
  {
    if times == [] then [] else [Turn(times[0])] + Turns(times[1..])
  }

  /** Every event is due at every one of the times. */
  ghost predicate AllDue(events: seq<Event>, times: seq<Time>) {
    forall i, j :: 0 <= i < |events| && 0 <= j < |times| ==> Before(events[i].time, times[j])
  }

  lemma {:induction false} RunJoins(s: State, a: seq<Step>, b: seq<Step>)
    ensures Run(s, a + b) == Run(Run(s, a), b)
    decreases a
  {
    hide Apply;
    if a == [] {
      assert a + b == b;
    } else {
      assert (a + b)[0] == a[0] && (a + b)[1..] == a[1..] + b;
      RunJoins(Apply(s, a[0]), a[1..], b);
    }
  }

  lemma {:induction false} TurnsFire(s: State, times: seq<Time>)
    requires s.queue.closed == 0 && |s.queue.events| <= |times| && AllDue(s.queue.events, times)
    ensures var t := Run(s, Turns(times));
      && t.queue.events == [] && t.history.fired == s.history.fired + s.queue.events
      && t.history.queued == s.history.queued && t.queue.closed == 0
    decreases times
  {
    hide Before;
    if times != [] {
      var s1 := Apply(s, Turn(times[0]));
      RunOne(s, Turn(times[0]), Turns(times[1..]));
      assert s.queue.events != [] ==> Before(s.queue.events[0].time, times[0]);
      TurnsFire(s1, times[1..]);
      if s.queue.events != [] {
        assert s.history.fired + [s.queue.events[0]] + s.queue.events[1..] == s.history.fired + s.queue.events;
      }
    }
  }

  /** Nothing stays behind: after any run that leaves the queue open, as many turns as there are
      events, at any times after their deadlines, fire all of them in the order of the queue. Then
      what has fired is just what was ever queued. */
  lemma AllFire(steps: seq<Step>, times: seq<Time>)
    requires var q := Run(START, steps).queue;
      q.closed == 0 && |q.events| <= |times| && AllDue(q.events, times)
    ensures var s, t := Run(START, steps), Run(START, steps + Turns(times));
      && t.queue.events == [] && t.history.fired == s.history.fired + s.queue.events
      && t.history.queued == s.history.queued && multiset(t.history.fired) == multiset(t.history.queued)
  {
    hide Run, Turns, AllDue;
    RunJoins(START, steps, Turns(times));
    TurnsFire(Run(START, steps), times);
    RunKeeps(START, steps + Turns(times));
    assert multiset(Run(START, steps + Turns(times)).queue.events) == multiset{};
  }

  /** No step closes the queue. */
  predicate StaysOpen(steps: seq<Step>) {
    forall i :: 0 <= i < |steps| && steps[i].Close? ==> steps[i].flag == 0
  }

  function TurnCount(steps: seq<Step>): nat
    decreases steps
  {
    if steps == [] then 0 else (if steps[0].Turn? then 1 else 0) + TurnCount(steps[1..])
  }

  lemma StepDispatches(s: State, e: Step)
    requires s.queue.closed == 0 && (e.Close? ==> e.flag == 0)
    ensures var t := Apply(s, e);
      && t.queue.closed == 0
      && (if e.Turn? && s.queue.requests != []
          then t.history.dispatched == s.history.dispatched + [s.queue.requests[0]] && t.queue.requests == s.queue.requests[1..]
          else t.history.dispatched == s.history.dispatched && s.queue.requests <= t.queue.requests)
      && (e.Turn? && s.queue.requests == [] ==> t.queue.requests == [])
  {
  }

  lemma {:induction false} DispatchedGrows(s: State, steps: seq<Step>)
    ensures s.history.dispatched <= Run(s, steps).history.dispatched
    decreases steps
  {
    hide Insert, Due;
    if steps != [] {
      DispatchedGrows(Apply(s, steps[0]), steps[1..]);
    }
  }

  /** Requests do not wait for anything: whatever else is queued and submitted meanwhile, an open
      queue dispatches exactly one waiting request a turn, in the order of their coming. */
  lemma {:induction false} TurnsDispatch(s: State, steps: seq<Step>, n: nat)
    requires s.queue.closed == 0 && StaysOpen(steps) && n <= |s.queue.requests| && n <= TurnCount(steps)
    ensures s.history.dispatched + s.queue.requests[..n] <= Run(s, steps).history.dispatched
    ensures n == TurnCount(steps) ==> Run(s, steps).history.dispatched == s.history.dispatched + s.queue.requests[..n]
    decreases steps
  {
    hide Apply;
    if steps != [] {
      var s1 := Apply(s, steps[0]);
      StepDispatches(s, steps[0]);
      if steps[0].Turn? && n > 0 {
        TurnsDispatch(s1, steps[1..], n - 1);
        assert s.queue.requests[..n] == [s.queue.requests[0]] + s.queue.requests[1..][..n - 1];
        assert s.history.dispatched + [s.queue.requests[0]] + s1.queue.requests[..n - 1] == s.history.dispatched + s.queue.requests[..n];
      } else if steps[0].Turn? {
        DispatchedGrows(s1, steps[1..]);
      } else {
        TurnsDispatch(s1, steps[1..], n);
        assert s1.queue.requests[..n] == s.queue.requests[..n];
      }
    }
  }

  /** So all that was submitted before is dispatched first, once the queue stays open for as many
      turns as requests wait. */
  lemma AllDispatched(steps: seq<Step>, more: seq<Step>)
    requires Run(START, steps).queue.closed == 0 && StaysOpen(more)
    requires |Run(START, steps).queue.requests| <= TurnCount(more)
    ensures Run(START, steps).history.submitted <= Run(START, steps + more).history.dispatched
  {
    hide Run, TurnCount, StaysOpen;
    RunKeeps(START, steps);
    RunJoins(START, steps, more);
    TurnsDispatch(Run(START, steps), more, |Run(START, steps).queue.requests|);
  }

  /** The queue keeps all ties in the order of queueing. */
  ghost predicate TiesKept(events: seq<Event>) {
    forall i, j :: 0 <= i < j < |events| && Nanoseconds(events[i].time) == Nanoseconds(events[j].time)
      ==> events[i].number < events[j].number
  }

  /** e was kept with a full billion of nanoseconds, r has the same instant as the next second and
      was queued before e. */
  predicate Overtakes(e: Event, r: Event) {
    && Nanoseconds(e.time) == Nanoseconds(r.time) && e.time.nsec == BILLION && r.time.nsec == 0
    && r.number < e.number
  }

  lemma OvertakesExactly(e: Event, r: Event)
    requires Ahead(e, r) && e.time.nsec <= BILLION && r.time.nsec <= BILLION && Nanoseconds(e.time) == Nanoseconds(r.time)
    ensures e.number == r.number || (e.number < r.number <==> !Overtakes(e, r))
    ensures e.number == r.number ==> Before(e.time, r.time)
  {
    BeforeExactly(e.time, r.time);
  }

  /** After any run, ties are in the order of queueing exactly when none of the events in the queue
      was kept with a full billion behind an earlier one for the same instant. */
  lemma TiesKeptExactly(steps: seq<Step>)
    requires Deadlines(steps)
    ensures var events := Run(START, steps).queue.events;
      TiesKept(events) <==> !exists i, j :: 0 <= i < |events| && 0 <= j < |events| && Overtakes(events[i], events[j])
  {
    hide Run, Ahead, Before, Deadlines, Overtakes;
    RunKeeps(START, steps);
    TimesKept(START, steps);
    var s := Run(START, steps);
    var events := s.queue.events;
    forall i, j | 0 <= i < j < |events| && Nanoseconds(events[i].time) == Nanoseconds(events[j].time)
      ensures events[i].number < events[j].number <==> !Overtakes(events[i], events[j])
    {
      WasQueued(s, i);
      WasQueued(s, j);
      NumbersDiffer(s, i, j);
      OvertakesExactly(events[i], events[j]);
    }
    forall i, j | 0 <= j <= i < |events|
      ensures !Overtakes(events[i], events[j])
    {
      WasQueued(s, i);
      WasQueued(s, j);
      NotOvertaking(events, i, j);
    }
    OvertakesTies(events);
  }

  lemma OvertakesTies(events: seq<Event>)
    ensures forall i, j :: 0 <= i < |events| && 0 <= j < |events| ==>
      (Overtakes(events[i], events[j]) ==> Nanoseconds(events[i].time) == Nanoseconds(events[j].time))
  {
  }

  /** An event that overtakes another stands before it. */
  lemma NotOvertaking(events: seq<Event>, i: nat, j: nat)
    requires Sorted(events) && j <= i < |events| && events[i].time.nsec <= BILLION && events[j].time.nsec <= BILLION
    ensures !Overtakes(events[i], events[j])
  {
    if j < i { assert Ahead(events[j], events[i]); }
  }

  /** No two events of the queue have the same number. */
  lemma NumbersDiffer(s: State, i: nat, j: nat)
    requires Inv(s) && i < j < |s.queue.events|
    ensures s.queue.events[i].number != s.queue.events[j].number
  {
    hide Ahead;
    var events := s.queue.events;
    WasQueued(s, i);
    WasQueued(s, j);
    assert events[i] in s.history.queued && events[j] in s.history.queued;
    if events[i].number == events[j].number {
      assert events[i] == events[j];
      NotAheadOfItself(events[i]);
    }
  }

  lemma NotAheadOfItself(e: Event)
    ensures !Ahead(e, e)
  {
  }

  /** A tie that does not keep the order of queueing: the second event was queued later, for the
      same instant, and fires first. */
  lemma TieTurnedRound()
    ensures var first, second := Deadline(Time(1, 0), Time(1, 0)), Deadline(Time(1, 500000000), Time(0, 500000000));
      var s := Run(START, [Enqueue(first), Enqueue(second), Reopen, Turn(Time(3, 0))]);
      && Nanoseconds(first) == Nanoseconds(second)
      && s.history.fired == [Event(1, second)] && s.queue.events == [Event(0, first)]
  {
    var first, second := Deadline(Time(1, 0), Time(1, 0)), Deadline(Time(1, 500000000), Time(0, 500000000));
    var s1 := Apply(START, Enqueue(first));
    var s2 := Apply(s1, Enqueue(second));
    var s3 := Apply(s2, Reopen);
    assert Insert([], Event(0, first)) == [Event(0, first)];
    assert s2.queue.events == [Event(1, second)] + [Event(0, first)];
    RunOne(START, Enqueue(first), [Enqueue(second), Reopen, Turn(Time(3, 0))]);
    RunOne(s1, Enqueue(second), [Reopen, Turn(Time(3, 0))]);
    RunOne(s2, Reopen, [Turn(Time(3, 0))]);
    RunOne(s3, Turn(Time(3, 0)), []);
  }

  lemma RunOne(s: State, e: Step, steps: seq<Step>)
    ensures Run(s, [e] + steps) == Run(Apply(s, e), steps) && Run(s, []) == s
    ensures steps == [] ==> [e] + steps == [e]
  {
    hide Apply;
    assert ([e] + steps)[1..] == steps;
  }
}
