/** The event bus over its event queues: bus calls push into the queues' machines, whose
    timers run the events, under every interleaving, while queues come and go. */
module EventSystem {
  import opened Basics
  import opened EventBusSpec
  import Q = EventQueues

  // A callback on a queue, as the bus call that sent it, by its index, and what it pushed;
  // or a callback somebody else pushed.
  datatype Event = FromBus(call: nat, push: Push) | Direct(id: int)

  /** `calls` is the history of the bus, `queues` are the queues that exist now, `known` all
      there ever were. */
  datatype System = System(calls: seq<Call>, queues: map<Queue, Q.Machine<Event>>, known: set<Queue>)

  datatype Step =
    | Create(queue: Queue)
    | Destroy(queue: Queue)
    | BusCall(call: Call, expired: set<Queue>)
    | PushDirect(queue: Queue, id: int)
    | TimerTake(queue: Queue)
    | TimerFinish(queue: Queue)

  const INITIAL := System([], map[], {})

  // The queue whose existence an operation asks for under `key`.
  ghost function QueueOf(flat: Flat, op: Op, key: Key): Option<Queue> {
    if op.Subscribe? && op.key == key then Some(op.subscription.queue)
    else if Addresses(op, key) && key in flat then Some(flat[key].queue)
    else None
  }

  /** A subscription found alive has a queue that existed when the call began; one found
      expired has none, or one that expired during the call. */
  ghost predicate SawAlive(s: System, call: Call, expired: set<Queue>) {
    forall key ::
      var q := QueueOf(FlatAfter(s.calls), call.op, key);
      q.Some? ==> if key in call.live then q.value in s.queues else q.value !in s.queues || q.value in expired
  }

  /** Which steps may be taken.  A bus call pushes what it owes, which is what EventBus.Valid
      says of every call of every run of the object. */
  ghost predicate Enabled(s: System, step: Step) {
    match step
    case Create(q) => q !in s.known
    case Destroy(q) => q in s.queues && s.queues[q].inFlight.None?
    case BusCall(call, expired) =>
      Pushes(FlatAfter(s.calls), call.op, call.live, call.pushes) && SawAlive(s, call, expired)
    case PushDirect(q, _) => q in s.queues
    case TimerTake(q) => q in s.queues && Q.Enabled(s.queues[q], Q.TimerTake)
    case TimerFinish(q) => q in s.queues && Q.Enabled(s.queues[q], Q.TimerFinish)
  }

  // The pushes of a call that go to `queue`, one after the other.
  ghost function Pushed(m: Q.Machine<Event>, queue: Queue, call: nat, pushes: seq<Push>): Q.Machine<Event>
    decreases |pushes|
  {
    if pushes == [] then m
    else
      var n := |pushes| - 1;
      var m' := Pushed(m, queue, call, pushes[..n]);
      if pushes[n].queue == queue then Q.Next(m', Q.Push(FromBus(call, pushes[n]))) else m'
  }

  ghost function Next(s: System, step: Step): System
    requires Enabled(s, step)
  {
    match step
    case Create(q) => s.(queues := s.queues[q := Q.Initial()], known := s.known + {q})
    case Destroy(q) => s.(queues := s.queues - {q})
    case BusCall(call, expired) =>
      s.(calls := s.calls + [call],
         queues := map q | q in s.queues && q !in expired :: Pushed(s.queues[q], q, |s.calls|, call.pushes))
    case PushDirect(q, id) => s.(queues := s.queues[q := Q.Next(s.queues[q], Q.Push(Direct(id)))])
    case TimerTake(q) => s.(queues := s.queues[q := Q.Next(s.queues[q], Q.TimerTake)])
    case TimerFinish(q) => s.(queues := s.queues[q := Q.Next(s.queues[q], Q.TimerFinish)])
  }

  /** The event is owed to the queue: its call, in the table as it was then, addressed a live
      subscriber with this queue, callback and data. */
  ghost predicate Owed(calls: seq<Call>, queue: Queue, e: Event) {
    && e.FromBus? && e.call < |calls| && e.push.queue == queue
    && Due(FlatAfter(calls[..e.call]), calls[e.call].op, calls[e.call].live, e.push)
  }

  ghost predicate InCallOrder(events: seq<Event>) {
    forall i, j | 0 <= i < j < |events| && events[i].FromBus? && events[j].FromBus? ::
      || events[i].call < events[j].call
      || (events[i].call == events[j].call && events[i].push.name != events[j].push.name)
  }

  /** `events` holds everything owed to the queue by the bus, once each, in the order of the
      bus calls, and nothing else from the bus. */
  ghost predicate Delivered(calls: seq<Call>, queue: Queue, events: seq<Event>) {
    && InCallOrder(events)
    && (forall e: Event | e.FromBus? :: e in events <==> Owed(calls, queue, e))
  }

  ghost predicate Inv(s: System) {
    && s.queues.Keys <= s.known
    && (forall q | q in s.queues :: Q.Inv(s.queues[q]) && Delivered(s.calls, q, s.queues[q].pushed))
    && (forall q, e: Event | Owed(s.calls, q, e) :: q in s.known)
  }

  // ---- One bus call on one queue ----

  lemma {:induction false} PushedExact(m: Q.Machine<Event>, queue: Queue, call: nat, pushes: seq<Push>)
    requires Q.Inv(m) && InCallOrder(m.pushed)
    requires forall e | e in m.pushed && e.FromBus? :: e.call < call
    requires forall i, j | 0 <= i < j < |pushes| :: pushes[i].name != pushes[j].name
    ensures var m' := Pushed(m, queue, call, pushes);
      && Q.Inv(m') && InCallOrder(m'.pushed)
      && (forall e: Event | e.FromBus? ::
            e in m'.pushed <==> e in m.pushed || (e.call == call && e.push in pushes && e.push.queue == queue))
    decreases |pushes|
  {
    if pushes != [] {
      var n := |pushes| - 1;
      var before := pushes[..n];
      PushedExact(m, queue, call, before);
      var m', e := Pushed(m, queue, call, before), FromBus(call, pushes[n]);
      assert pushes == before + [pushes[n]];
      if pushes[n].queue == queue {
        Q.StepKeepsInv(m', Q.Push(e));
        hide Pushed, Q.Inv;
        LastInOrder(m'.pushed, e);
      }
    }
  }

  lemma LastInOrder(events: seq<Event>, last: Event)
    requires InCallOrder(events)
    requires last.FromBus? ==>
               forall e | e in events && e.FromBus? ::
                 e.call < last.call || (e.call == last.call && e.push.name != last.push.name)
    ensures InCallOrder(events + [last])
  {
    var more := events + [last];
    forall i, j | 0 <= i < j < |more| && more[i].FromBus? && more[j].FromBus?
      ensures more[i].call < more[j].call || (more[i].call == more[j].call && more[i].push.name != more[j].push.name)
    {
      if j == |events| {
        assert more[i] in events;
      }
    }
  }

  // A further call leaves what was owed before, and owes its own pushes.
  lemma OwedSnoc(calls: seq<Call>, call: Call, queue: Queue, e: Event)
    requires Pushes(FlatAfter(calls), call.op, call.live, call.pushes) && e.FromBus?
    ensures Owed(calls + [call], queue, e) <==>
              Owed(calls, queue, e) || (e.call == |calls| && e.push in call.pushes && e.push.queue == queue)
  {
    var more := calls + [call];
    if e.call < |calls| {
      assert more[..e.call] == calls[..e.call];
    } else if e.call == |calls| {
      assert more[..e.call] == calls;
    }
  }

  lemma CallKeepsQueue(s: System, call: Call, expired: set<Queue>, q: Queue)
    requires Inv(s) && Enabled(s, BusCall(call, expired)) && q in s.queues
    ensures var m' := Pushed(s.queues[q], q, |s.calls|, call.pushes);
      Q.Inv(m') && Delivered(s.calls + [call], q, m'.pushed)
  {
    var m := s.queues[q];
    forall e | e in m.pushed && e.FromBus?
      ensures e.call < |s.calls|
    {
      assert Owed(s.calls, q, e);
    }
    PushedExact(m, q, |s.calls|, call.pushes);
    hide Pushed, Q.Inv, Pushes, SawAlive;
    forall e: Event | e.FromBus?
      ensures e in Pushed(m, q, |s.calls|, call.pushes).pushed <==> Owed(s.calls + [call], q, e)
    {
      OwedSnoc(s.calls, call, q, e);
    }
  }

  // A push goes to a queue that existed.
  lemma PushReachesQueue(s: System, call: Call, expired: set<Queue>, p: Push)
    requires Enabled(s, BusCall(call, expired)) && p in call.pushes
    ensures p.queue in s.queues
  {
    var flat := FlatAfter(s.calls);
    var key :| DueTo(flat, call.op, call.live, key, p);
    assert QueueOf(flat, call.op, key) == Some(p.queue);
  }

  lemma BusCallKeepsInv(s: System, call: Call, expired: set<Queue>)
    requires Inv(s) && Enabled(s, BusCall(call, expired))
    ensures Inv(Next(s, BusCall(call, expired)))
  {
    var s' := Next(s, BusCall(call, expired));
    forall q | q in s'.queues
      ensures Q.Inv(s'.queues[q]) && Delivered(s'.calls, q, s'.queues[q].pushed)
    {
      CallKeepsQueue(s, call, expired, q);
    }
    forall q, e: Event | Owed(s'.calls, q, e)
      ensures q in s'.known
    {
      OwedSnoc(s.calls, call, q, e);
      if !Owed(s.calls, q, e) {
        PushReachesQueue(s, call, expired, e.push);
      }
    }
  }

  lemma QueueStepKeepsInv(s: System, q: Queue, step: Q.Step<Event>)
    requires Inv(s) && q in s.queues && Q.Enabled(s.queues[q], step) && (step.Push? ==> step.callback.Direct?)
    ensures Inv(s.(queues := s.queues[q := Q.Next(s.queues[q], step)]))
  {
    var m := s.queues[q];
    Q.StepKeepsInv(m, step);
    if step.Push? {
      LastInOrder(m.pushed, step.callback);
    }
    hide Q.Inv, InCallOrder, Owed;
    assert Delivered(s.calls, q, m.pushed);
  }

  lemma StepKeepsInv(s: System, step: Step)
    requires Inv(s) && Enabled(s, step)
    ensures Inv(Next(s, step))
  {
    match step
    case BusCall(call, expired) => BusCallKeepsInv(s, call, expired);
    case PushDirect(q, id) => QueueStepKeepsInv(s, q, Q.Push(Direct(id)));
    case TimerTake(q) => QueueStepKeepsInv(s, q, Q.TimerTake);
    case TimerFinish(q) => QueueStepKeepsInv(s, q, Q.TimerFinish);
    case _ =>
  }

  ghost predicate Run(s: System, steps: seq<Step>)
    decreases |steps|
  {
    steps == [] || (Enabled(s, steps[0]) && Run(Next(s, steps[0]), steps[1..]))
  }

  ghost function After(s: System, steps: seq<Step>): System
    requires Run(s, steps)
    decreases |steps|
  {
    if steps == [] then s else After(Next(s, steps[0]), steps[1..])
  }

  lemma {:induction false} RunKeepsInv(s: System, steps: seq<Step>)
    requires Inv(s) && Run(s, steps)
    ensures Inv(After(s, steps))
    decreases |steps|
  {
    hide Inv, Enabled, Next;
    if steps != [] {
      StepKeepsInv(s, steps[0]);
      RunKeepsInv(Next(s, steps[0]), steps[1..]);
    }
  }

  /** The calls made on the bus, in order. */
  function BusCalls(steps: seq<Step>): seq<Call> {
    if steps == [] then []
    else (if steps[0].BusCall? then [steps[0].call] else []) + BusCalls(steps[1..])
  }

  lemma {:induction false} CallsAreBusCalls(s: System, steps: seq<Step>)
    requires Run(s, steps)
    ensures After(s, steps).calls == s.calls + BusCalls(steps)
    decreases |steps|
  {
    if steps == [] {
      assert s.calls + [] == s.calls;
    } else {
      var own: seq<Call> := if steps[0].BusCall? then [steps[0].call] else [];
      assert Next(s, steps[0]).calls == s.calls + own;
      hide Enabled, Next;
      CallsAreBusCalls(Next(s, steps[0]), steps[1..]);
      Associative(s.calls, own, BusCalls(steps[1..]));
    }
  }

  /** Under every interleaving of bus calls with pushes by others, timers, and queues coming
      and going: what a queue has run and what it still holds are, in this order, exactly the
      events the bus owes it, once each and in the order of the bus calls (with others' pushes
      in between); and its timer fires exactly when there is something to run. */
  lemma BusDeliversExactly(steps: seq<Step>, q: Queue)
    requires Run(INITIAL, steps) && q in After(INITIAL, steps).queues
    ensures var m := After(INITIAL, steps).queues[q];
      && Delivered(BusCalls(steps), q, m.taken + m.queue)
      && (m.inFlight.None? ==> (m.armed <==> m.queue != []))
      && (m.queue != [] ==> m.armed)
  {
    RunKeepsInv(INITIAL, steps);
    CallsAreBusCalls(INITIAL, steps);
    assert [] + BusCalls(steps) == BusCalls(steps);
    hide Run, After, Delivered, Owed;
  }
}
