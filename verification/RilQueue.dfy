/** The request queue in memory: a doubly linked list of events, of which the first one's prev
    may be stale, and a singly linked list of requests. */
module RilQueue {
  import opened RilSchedule

  class RILEvent {
    const number: nat
    const abstime: Time
    var next: RILEvent?
    var prev: RILEvent?

    constructor (number: nat, abstime: Time)
      ensures this.number == number && this.abstime == abstime && next == null && prev == null
    {
      this.number, this.abstime, next, prev := number, abstime, null, null;
    }
  }

  class RILRequest {
    const token: nat
    var next: RILRequest?

    constructor (token: nat)
      ensures this.token == token && next == null
    {
      this.token, next := token, null;
    }
  }

  function EventAt(nodes: seq<RILEvent>, i: nat): RILEvent? { if i < |nodes| then nodes[i] else null }

  function RequestAt(nodes: seq<RILRequest>, i: nat): RILRequest? { if i < |nodes| then nodes[i] else null }

  ghost function Events(nodes: seq<RILEvent>): (r: seq<Event>)
    ensures |r| == |nodes| && forall i :: 0 <= i < |nodes| ==> r[i] == Event(nodes[i].number, nodes[i].abstime)
  {
    seq(|nodes|, i requires 0 <= i < |nodes| => Event(nodes[i].number, nodes[i].abstime))
  }

  ghost function Tokens(nodes: seq<RILRequest>): (r: seq<nat>)
    ensures |r| == |nodes| && forall i :: 0 <= i < |nodes| ==> r[i] == nodes[i].token
  {
    seq(|nodes|, i requires 0 <= i < |nodes| => nodes[i].token)
  }

  class RequestQueue {
    var requestList: RILRequest?
    var eventList: RILEvent?
    var closed: nat
    ghost var events: seq<RILEvent>
    ghost var requests: seq<RILRequest>

    constructor ()
      ensures Valid() && Value() == START.queue && events == [] && requests == []
    {
      requestList, eventList, closed := null, null, 1;
      events, requests := [], [];
    }

    /** Every node but the first points back at the one before it; nothing is said of the prev of
        the first one, which after a pop is an event that was freed. */
    ghost predicate ValidEvents()
      reads this, events
    {
      && eventList == EventAt(events, 0)
      && (forall i {:trigger events[i].next} :: 0 <= i < |events| ==> events[i].next == EventAt(events, i + 1))
      && (forall i {:trigger events[i].prev} :: 0 < i < |events| ==> events[i].prev == events[i - 1])
      && (forall i, j :: 0 <= i < j < |events| ==> events[i] != events[j])
    }

    ghost predicate ValidRequests()
      reads this, requests
    {
      && requestList == RequestAt(requests, 0)
      && (forall i {:trigger requests[i].next} :: 0 <= i < |requests| ==> requests[i].next == RequestAt(requests, i + 1))
      && (forall i, j :: 0 <= i < j < |requests| ==> requests[i] != requests[j])
    }

    ghost predicate Valid()
      reads this, events, requests
    {
      ValidEvents() && ValidRequests()
    }

    ghost function Value(): Queue
      reads this
    {
      Queue(Events(events), Tokens(requests), closed)
    }

    /** enqueueRILEvent, from where it has the mutex */
    method EnqueueEvent(number: nat, abstime: Time)
      requires Valid()
      modifies this`eventList, this`events, events
      ensures Valid() && Value() == old(Value()).(events := Insert(old(Value().events), Event(number, abstime)))
      ensures forall k :: 0 <= k < |events| ==> fresh(events[k]) || events[k] in old(events)
    {
      var e := new RILEvent(number, abstime);
      if eventList == null {
        eventList := e;
        events := [e];
      } else if Before(abstime, eventList.abstime) {
        e.next := eventList;
        eventList.prev := e;
        eventList := e;
        events := [e] + events;
      } else {
        InsertBehindHead(e);
      }
    }

    /** The loop of enqueueRILEvent: it starts at the head, but follows prev only further on. */
    method InsertBehindHead(e: RILEvent)
      requires ValidEvents() && events != [] && !Before(e.abstime, events[0].abstime)
      requires e !in events && e.next == null
      modifies this`events, events, e
      ensures ValidEvents() && Events(events) == Insert(old(Events(events)), Event(e.number, e.abstime))
      ensures eventList == old(eventList)
      ensures forall k :: 0 <= k < |events| ==> events[k] == e || events[k] in old(events)
    {
      hide Before, Insert;
      var tmp := eventList;
      ghost var k := 0;
      while true
        invariant k < |events| && tmp == events[k]
        invariant forall m :: 0 <= m < k ==> !Before(e.abstime, events[m].abstime)
        decreases |events| - k
      {
        if Before(e.abstime, tmp.abstime) {
          InsertedAt(Events(events), Event(e.number, e.abstime), k);
          Splice(e, tmp, k);
          break;
        } else if tmp.next == null {
          InsertedAt(Events(events), Event(e.number, e.abstime), k + 1);
          Append(e, tmp);
          break;
        }
        tmp := tmp.next;
        k := k + 1;
      }
    }

    /** Linking e in before tmp */
    method Splice(e: RILEvent, tmp: RILEvent, ghost k: nat)
      requires ValidEvents() && 0 < k < |events| && tmp == events[k] && e !in events
      modifies this`events, events, e
      ensures ValidEvents() && eventList == old(eventList)
      ensures events == old(events[..k] + [e] + events[k..])
    {
      tmp.prev.next := e;
      e.prev := tmp.prev;
      tmp.prev := e;
      e.next := tmp;
      ghost var was := events;
      events := was[..k] + [e] + was[k..];
      assert events[k] == e && events[k - 1] == was[k - 1] && events[k + 1] == tmp;
      assert forall i :: 0 <= i < k ==> events[i] == was[i];
      assert forall i :: k < i < |events| ==> events[i] == was[i - 1];
      assert forall i {:trigger events[i].next} :: 0 <= i < |events| ==> events[i].next == EventAt(events, i + 1);
    }

    /** Linking e in behind the last event */
    method Append(e: RILEvent, tmp: RILEvent)
      requires ValidEvents() && events != [] && tmp == events[|events| - 1] && e !in events && e.next == null
      modifies this`events, events, e
      ensures ValidEvents() && eventList == old(eventList) && events == old(events) + [e]
    {
      tmp.next := e;
      e.prev := tmp;
      events := events + [e];
    }

    /** onRequest, from where it has the mutex */
    method AddRequest(token: nat)
      requires Valid()
      modifies this`requestList, this`requests, requests
      ensures Valid() && Value() == old(Value()).(requests := old(Value().requests) + [token])
      ensures |requests| == |old(requests)| + 1 && requests[..|old(requests)|] == old(requests) && fresh(requests[|old(requests)|])
    {
      var r := new RILRequest(token);
      if requestList == null {
        requestList := r;
      } else {
        var l := requestList;
        ghost var k := 0;
        while l.next != null
          invariant k < |requests| && l == requests[k]
          decreases |requests| - k
        {
          l := l.next;
          k := k + 1;
        }
        l.next := r;
      }
      requests := requests + [r];
    }

    /** The turn of queueRunner behind its waits; what it returns is called back and freed. */
    method TakeNext(now: Time) returns (e: RILEvent?, r: RILRequest?)
      requires Valid()
      modifies this`eventList, this`requestList, this`events, this`requests
      ensures Valid() && closed == old(closed)
      ensures var s := Take(State(old(Value()), History([], [], [], [])), now);
        && Value() == s.queue
        && s.history.fired == (if e == null then [] else [Event(e.number, e.abstime)])
        && s.history.dispatched == (if r == null then [] else [r.token])
      ensures if e == null then events == old(events) else old(events) == [e] + events
      ensures if r == null then requests == old(requests) else old(requests) == [r] + requests
    {
      hide Before, Valid;
      ghost var was := Value();
      e := TakeEvent(now);
      r := TakeRequest();
      assert was == Queue(if e == null then Value().events else [Event(e.number, e.abstime)] + Value().events, old(Value().requests), closed);
    }

    method TakeEvent(now: Time) returns (e: RILEvent?)
      requires Valid()
      modifies this`eventList, this`events
      ensures Valid() && (e != null <==> Due(old(Value()), now))
      ensures if e == null then events == old(events) else old(events) == [e] + events
    {
      e := null;
      if eventList != null && Before(eventList.abstime, now) {
        e := eventList;
        eventList := e.next;
        events := events[1..];
      }
    }

    method TakeRequest() returns (r: RILRequest?)
      requires Valid()
      modifies this`requestList, this`requests
      ensures Valid() && (r != null <==> old(requests) != [])
      ensures if r == null then requests == old(requests) else old(requests) == [r] + requests
    {
      r := null;
      if requestList != null {
        r := requestList;
        requestList := r.next;
        requests := requests[1..];
      }
    }

    /** signalCloseQueues */
    method SignalClose(flag: nat)
      requires Valid()
      modifies this`closed
      ensures Valid() && Value() == old(Value()).(closed := flag)
    {
      closed := flag;
    }
  }

  /** Where the first later event stands */
  lemma {:induction false} InsertedAt(events: seq<Event>, e: Event, k: nat)
    requires k <= |events| && forall m :: 0 <= m < k ==> !Before(e.time, events[m].time)
    requires k < |events| ==> Before(e.time, events[k].time)
    ensures Insert(events, e) == events[..k] + [e] + events[k..]
    decreases k
  {
    hide Before;
    if k == 0 {
    } else {
      InsertedAt(events[1..], e, k - 1);
    }
  }

  // ------------------------------------------------------------- whole runs

  /** All steps of a run on the lists in memory, with the number of events queued before it */
  method Perform(q: RequestQueue, steps: seq<Step>, count: nat, ghost s: State)
    returns (fired: seq<Event>, dispatched: seq<nat>)
    requires q.Valid() && q.Value() == s.queue && count == |s.history.queued|
    modifies q, q.events, q.requests
    ensures q.Valid()
    ensures var t := Run(s, steps);
      && q.Value() == t.queue
      && t.history.fired == s.history.fired + fired && t.history.dispatched == s.history.dispatched + dispatched
    ensures forall k :: 0 <= k < |q.events| ==> fresh(q.events[k]) || q.events[k] in old(q.events)
    ensures forall k :: 0 <= k < |q.requests| ==> fresh(q.requests[k]) || q.requests[k] in old(q.requests)
  {
    hide Insert, Before, Take, Apply, RequestQueue.Valid, RequestQueue.Value;
    var n := count;
    fired, dispatched := [], [];
    ghost var t := s;
    assert steps[0..] == steps;
    for i := 0 to |steps|
      invariant q.Valid() && q.Value() == t.queue && n == |t.history.queued|
      invariant Run(s, steps) == Run(t, steps[i..])
      invariant t.history.fired == s.history.fired + fired && t.history.dispatched == s.history.dispatched + dispatched
      invariant forall k :: 0 <= k < |q.events| ==> fresh(q.events[k]) || q.events[k] in old(q.events)
      invariant forall k :: 0 <= k < |q.requests| ==> fresh(q.requests[k]) || q.requests[k] in old(q.requests)
    {
      assert steps[i..][0] == steps[i] && steps[i..][1..] == steps[i + 1..];
      var f, d;
      f, d, n := PerformOne(q, steps[i], n, t);
      fired, dispatched := fired + f, dispatched + d;
      t := Apply(t, steps[i]);
    }
  }

  /** One step: an event queued, a request added, a turn of the runner, or the flag */
  method PerformOne(q: RequestQueue, step: Step, count: nat, ghost s: State)
    returns (fired: seq<Event>, dispatched: seq<nat>, n: nat)
    requires q.Valid() && q.Value() == s.queue && count == |s.history.queued|
    modifies q, q.events, q.requests
    ensures q.Valid()
    ensures var t := Apply(s, step);
      && q.Value() == t.queue && n == |t.history.queued|
      && t.history.fired == s.history.fired + fired && t.history.dispatched == s.history.dispatched + dispatched
    ensures forall k :: 0 <= k < |q.events| ==> fresh(q.events[k]) || q.events[k] in old(q.events)
    ensures forall k :: 0 <= k < |q.requests| ==> fresh(q.requests[k]) || q.requests[k] in old(q.requests)
  {
    hide Insert, Before, Take;
    fired, dispatched, n := [], [], count;
    match step {
      case Enqueue(time) =>
        q.EnqueueEvent(count, time);
        n := count + 1;
      case Request(token) => q.AddRequest(token);
      case Turn(now) =>
        if q.closed == 0 {
          var e, r := q.TakeNext(now);
          TakeAdds(s, now);
          fired := if e == null then [] else [Event(e.number, e.abstime)];
          dispatched := if r == null then [] else [r.token];
        }
      case Close(flag) => q.SignalClose(flag);
      case Reopen => q.closed := 0;
    }
  }

  /** What a turn takes does not depend on what was taken before. */
  lemma TakeAdds(s: State, now: Time)
    ensures var t, t0 := Take(s, now), Take(State(s.queue, History([], [], [], [])), now);
      && t.queue == t0.queue && t.history.queued == s.history.queued && t.history.submitted == s.history.submitted
      && t.history.fired == s.history.fired + t0.history.fired
      && t.history.dispatched == s.history.dispatched + t0.history.dispatched
  {
    hide Before;
  }

  /** A queue from its creation through any run: what fires and is dispatched is what the run
      fires and dispatches. Every event fires once or is still in the list, and requests are
      dispatched in the order of their coming. */
  method Serve(steps: seq<Step>) returns (q: RequestQueue, fired: seq<Event>, dispatched: seq<nat>)
    ensures fresh(q) && q.Valid() && fresh(q.events) && fresh(q.requests)
    ensures var s := Run(START, steps);
      && q.Value() == s.queue && fired == s.history.fired && dispatched == s.history.dispatched
      && multiset(fired) + multiset(q.Value().events) == multiset(s.history.queued)
      && (forall e :: multiset(fired)[e] + multiset(q.Value().events)[e] <= 1)
      && dispatched + q.Value().requests == s.history.submitted
  {
    hide Run;
    q := new RequestQueue();
    fired, dispatched := Perform(q, steps, 0, START);
    assert [] + fired == fired && [] + dispatched == dispatched;
    ExactlyOnce(steps);
  }

  /** As many turns as there are events, all later than their deadlines, empty the list of events
      in its order; waiting requests are dispatched one a turn. */
  method Empty(q: RequestQueue, times: seq<Time>) returns (fired: seq<Event>, dispatched: seq<nat>)
    requires q.Valid() && q.closed == 0 && |q.events| <= |times| && AllDue(q.Value().events, times)
    modifies q, q.events, q.requests
    ensures q.Valid() && q.events == [] && fired == old(q.Value().events)
    ensures dispatched == if |times| <= |old(q.requests)| then old(q.Value().requests)[..|times|] else old(q.Value().requests)
  {
    hide AllDue, Run, Take, Apply;
    ghost var s := State(q.Value(), History([], [], [], []));
    fired, dispatched := Perform(q, Turns(times), 0, s);
    assert [] + fired == fired && [] + dispatched == dispatched;
    TurnsFire(s, times);
    assert [] + s.queue.events == s.queue.events;
    TurnsTake(s, times);
    assert |q.Value().events| == |q.events|;
  }

  /** Turns alone dispatch the requests that wait, and no others. */
  lemma {:induction false} TurnsTake(s: State, times: seq<Time>)
    requires s.queue.closed == 0
    ensures Run(s, Turns(times)).history.dispatched
      == s.history.dispatched + if |times| <= |s.queue.requests| then s.queue.requests[..|times|] else s.queue.requests
    decreases times
  {
    hide Before, Due;
    if times != [] {
      RunOne(s, Turn(times[0]), Turns(times[1..]));
      TurnsTake(Apply(s, Turn(times[0])), times[1..]);
      if s.queue.requests != [] {
        var first, rest := [s.queue.requests[0]], s.queue.requests[1..];
        assert first + rest == s.queue.requests;
        if |times| <= |s.queue.requests| { assert first + rest[..|times| - 1] == s.queue.requests[..|times|]; }
      }
    }
  }
}
