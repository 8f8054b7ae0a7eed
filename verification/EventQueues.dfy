/** EventQueue: callbacks pushed from any thread, run one by one by a timer on the loop
    thread, which lets go of the lock while a callback runs. */
module EventQueues {
  import opened Basics

  /** The protocol: the object's fields, the callback in flight on the loop thread, and the
      history of pushes and of callbacks taken to be run. */
  datatype Machine<C> = Machine(queue: seq<C>, armed: bool, inFlight: Option<C>, pushed: seq<C>, taken: seq<C>)

  datatype Step<C> = Push(callback: C) | TimerTake | TimerFinish

  function Initial<C>(): Machine<C> {
    Machine([], false, None, [], [])
  }

  // The loop thread runs one callback at a time, and only when the timer fires.
  predicate TimerFires<C>(m: Machine<C>) {
    m.armed && m.inFlight.None?
  }

  predicate Enabled<C>(m: Machine<C>, step: Step<C>) {
    match step
    case Push(_) => true
    case TimerTake => TimerFires(m)
    case TimerFinish => m.inFlight.Some?
  }

  // Taking from an empty queue is undefined in the code; here it changes nothing.
  function Next<C>(m: Machine<C>, step: Step<C>): Machine<C>
    requires Enabled(m, step)
  {
    match step
    case Push(callback) => m.(queue := m.queue + [callback], armed := true, pushed := m.pushed + [callback])
    case TimerTake =>
      if m.queue == [] then m
      else m.(queue := m.queue[1..], inFlight := Some(m.queue[0]), taken := m.taken + [m.queue[0]])
    case TimerFinish => m.(inFlight := None, armed := m.armed && m.queue != [])
  }

  /** Nothing lost or reordered; pending callbacks imply a set timer; a timer set while
      nothing is in flight implies pending callbacks; the callback in flight is the last taken. */
  ghost predicate Inv<C>(m: Machine<C>) {
    && m.taken + m.queue == m.pushed
    && (m.queue != [] ==> m.armed)
    && (m.armed && m.inFlight.None? ==> m.queue != [])
    && (m.inFlight.Some? ==> m.armed && m.taken != [] && m.taken[|m.taken| - 1] == m.inFlight.value)
  }

  lemma StepKeepsInv<C>(m: Machine<C>, step: Step<C>)
    requires Inv(m) && Enabled(m, step)
    ensures Inv(Next(m, step))
  {
    if step.Push? {
      assert (m.taken + m.queue) + [step.callback] == m.taken + (m.queue + [step.callback]);
    } else if step.TimerTake? {
      assert m.queue == [m.queue[0]] + m.queue[1..];
    }
  }

  /** The object; `armed` is whether the timer is set (it then fires again and again). */
  class EventQueue<C> {
    var queue: seq<C>
    var armed: bool
    ghost var protocol: Machine<C>

    /** The object is in a state of the protocol that keeps its invariant. */
    ghost predicate Valid()
      reads this
    {
      queue == protocol.queue && armed == protocol.armed && Inv(protocol)
    }

    constructor ()
      ensures Valid() && protocol == Initial()
    {
      queue, armed, protocol := [], false, Initial();
    }

    method Push(callback: C)
      requires Valid()
      modifies this
      ensures Valid() && protocol == Next(old(protocol), Step.Push(callback))
      ensures queue == old(queue) + [callback] && armed
    {
      StepKeepsInv(protocol, Step.Push(callback));
      queue := queue + [callback];
      armed := true;
      protocol := Next(protocol, Step.Push(callback));
    }

    /** onTimer up to the unlock: there is a front callback whenever the timer fires.  The
        callback returned is then run without the lock. */
    method OnTimerTake() returns (callback: C)
      requires Valid() && TimerFires(protocol)
      modifies this
      ensures Valid() && protocol == Next(old(protocol), TimerTake) && protocol.inFlight == Some(callback)
      ensures [callback] + queue == old(queue) && armed
    {
      StepKeepsInv(protocol, TimerTake);
      callback := queue[0];
      queue := queue[1..];
      protocol := Next(protocol, TimerTake);
    }

    // onTimer from the second lock on.
    method OnTimerFinish()
      requires Valid() && protocol.inFlight.Some?
      modifies this
      ensures Valid() && protocol == Next(old(protocol), TimerFinish)
      ensures queue == old(queue) && (armed <==> queue != [])
    {
      StepKeepsInv(protocol, TimerFinish);
      if queue == [] {
        armed := false;
      }
      protocol := Next(protocol, TimerFinish);
    }
  }

  ghost predicate Run<C>(m: Machine<C>, steps: seq<Step<C>>)
    decreases |steps|
  {
    steps == [] || (Enabled(m, steps[0]) && Run(Next(m, steps[0]), steps[1..]))
  }

  ghost function After<C>(m: Machine<C>, steps: seq<Step<C>>): Machine<C>
    requires Run(m, steps)
    decreases |steps|
  {
    if steps == [] then m else After(Next(m, steps[0]), steps[1..])
  }

  lemma {:induction false} RunKeepsInv<C>(m: Machine<C>, steps: seq<Step<C>>)
    requires Inv(m) && Run(m, steps)
    ensures Inv(After(m, steps))
    decreases |steps|
  {
    if steps != [] {
      StepKeepsInv(m, steps[0]);
      RunKeepsInv(Next(m, steps[0]), steps[1..]);
    }
  }

  /** Under every interleaving of pushes with the two halves of onTimer: callbacks run in
      push order, each once; front() is never called on an empty queue; no pending callback
      is left without a set timer, and no timer fires for nothing. */
  lemma QueueProtocol<C>(steps: seq<Step<C>>)
    requires Run(Initial(), steps)
    ensures var m := After(Initial(), steps);
      && m.taken + m.queue == m.pushed
      && (TimerFires(m) ==> m.queue != [])
      && (m.queue != [] ==> m.armed)
      && (m.inFlight.None? ==> (m.armed <==> m.queue != []))
  {
    RunKeepsInv(Initial(), steps);
  }

  function DrainSteps<C>(inFlight: bool, pending: nat): seq<Step<C>>
    decreases pending
  {
    (if inFlight then [TimerFinish] else []) +
    if pending == 0 then [] else [TimerTake] + DrainSteps(true, pending - 1)
  }

  /** From every reachable state the timer alone runs everything pending and then stops. */
  lemma {:induction false} TimerDrains<C>(m: Machine<C>)
    requires Inv(m)
    ensures Run(m, DrainSteps(m.inFlight.Some?, |m.queue|))
    ensures var m' := After(m, DrainSteps<C>(m.inFlight.Some?, |m.queue|));
      m'.queue == [] && m'.inFlight.None? && !m'.armed && m'.taken == m.pushed
    decreases |m.queue|, m.inFlight.Some?
  {
    var steps := DrainSteps<C>(m.inFlight.Some?, |m.queue|);
    if m.inFlight.Some? {
      StepKeepsInv(m, TimerFinish);
      TimerDrains(Next(m, TimerFinish));
      assert steps == [TimerFinish] + DrainSteps<C>(false, |m.queue|);
    } else if m.queue != [] {
      StepKeepsInv(m, TimerTake);
      TimerDrains(Next(m, TimerTake));
      assert steps == [TimerTake] + DrainSteps<C>(true, |m.queue| - 1);
    } else {
      assert m.taken + [] == m.taken;
    }
  }
}
