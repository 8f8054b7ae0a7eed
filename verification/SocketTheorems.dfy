/** What a user of Socket can rely on, over all runs and in terms of the steps alone, and
    exactly when the handler's assertions and the loop's registration are as intended. */
module SocketTheorems {
  import opened Basics
  import opened Stream
  import opened StreamHistory
  import opened SocketStream
  import opened SocketRuns

  // ---- What the steps of a run say, without looking inside the socket ----

  /** `up`: a descriptor is committed.  `sends`: the sources handed to send(), and `received`
      the bytes recv() delivered, since the last connection ended.  `sink`: the last call to
      set or drop the sink installed one.  `ended`: the sends and the bytes received of each
      ended connection. */
  datatype Account = Account(up: bool, sends: seq<Send>, received: seq<byte>, sink: bool, ended: seq<Session>)

  datatype Session = Session(sends: seq<Send>, received: seq<byte>)

  predicate Delivers(step: Step) {
    step.HandleRead? && step.result.Got? && step.result.bytes != []
  }

  // Steps that close an open socket.
  predicate Ends(step: Step) {
    || step.Close? || step.Connect? || step.OpenHandle? || step.ConnectError? || step.HandleError?
    || (step.HandleRead? && !Delivers(step))
    || (step.HandleWrite? && step.size < 0)
  }

  function Observe(a: Account, step: Step): Account {
    var a1 := if a.up && Ends(step) then Account(false, [], [], false, a.ended + [Session(a.sends, a.received)]) else a;
    match step
    case OpenHandle => a1.(up := true)
    case Connect(how) => a1.(up := !how.Failed?)
    case Receive(reader) => a1.(sink := reader.Some?)
    case SendCall(send) => a1.(sends := a1.sends + [send])
    case HandleRead(result) => if Delivers(step) then a1.(received := a1.received + result.bytes) else a1
    case _ => a1
  }

  function Observed(steps: seq<Step>): Account {
    if steps == [] then Account(false, [], [], false, [])
    else Observe(Observed(steps[..|steps| - 1]), steps[|steps| - 1])
  }

  /** A sink handed over that is no longer there was completed; then nothing watches for it. */
  ghost predicate SinkInv(m: Machine, sink: bool) {
    && (m.s.ep.reader.Some? ==> sink)
    && (sink && m.s.ep.reader.None? ==>
          && m.s.connected && Read !in m.s.ep.events && Read !in m.pending
          && (m.s.ep.registered.Some? ==> Read !in m.s.ep.registered.value))
  }

  ghost predicate Agrees(m: Machine, a: Account) {
    && m.s.ep.isOpen == a.up && m.log.written == a.sends && m.log.received == a.received
    && |m.past| == |a.ended|
    && (forall i | 0 <= i < |m.past| ::
          m.past[i].written == a.ended[i].sends && m.past[i].received == a.ended[i].received)
    && SinkInv(m, a.sink)
  }

  lemma ReadAgrees(m: Machine, a: Account, result: ReadResult)
    requires PhaseInv(m) && Agrees(m, a) && Enabled(m, HandleRead(result))
    ensures Agrees(Next(m, HandleRead(result)), Observe(a, HandleRead(result)))
  {
    ReadHalfPhase(m.s.ep, result);
    ReadLogs(m.s.ep, result, m.log);
    hide ReadHalf, LogRead, PossibleRead;
  }

  lemma ReadLogs(e: Endpoint, result: ReadResult, log: Log)
    requires e.isOpen && e.reader.Some? && PossibleRead(e.reader.value.sink, result)
    ensures LogRead(log, e, result).written == log.written
    ensures LogRead(log, e, result).received ==
      if result.Got? && result.bytes != [] then log.received + result.bytes else log.received
  {
    ReadHalfPhase(e, result);
    assert log.received + [] == log.received;
  }

  lemma WriteAgrees(m: Machine, a: Account, size: int, errno: int)
    requires PhaseInv(m) && Agrees(m, a) && Enabled(m, HandleWrite(size, errno))
    ensures Agrees(Next(m, HandleWrite(size, errno)), Observe(a, HandleWrite(size, errno)))
  {
    WriteHalfPhase(m.s.ep, size, errno);
    CloseLogs(m.log, m.s.ep);
    hide WriteHalf, WrittenTags, PossibleWrite, LogClose, LogRetire;
  }

  lemma CallAgrees(m: Machine, a: Account, step: Step)
    requires PhaseInv(m) && Agrees(m, a) && Enabled(m, step) && (step.Receive? || step.SendCall?)
    ensures Agrees(Next(m, step), Observe(a, step))
  {
    hide Gained, SockReadHalf, SockWriteHalf, PossibleRead, PossibleWrite;
  }

  lemma OtherAgrees(m: Machine, a: Account, step: Step)
    requires PhaseInv(m) && Agrees(m, a) && Enabled(m, step)
    requires !step.Receive? && !step.SendCall? && !step.HandleRead? && !step.HandleWrite?
    ensures Agrees(Next(m, step), Observe(a, step))
  {
    CloseLogs(m.log, m.s.ep);
    hide SockReadHalf, SockWriteHalf, PossibleRead, PossibleWrite, SockReceived, SockSent;
    hide LogClose, LogRetire, LogRead, LogWrite, LogInstall, LogSubmit;
  }

  lemma CloseLogs(log: Log, e: Endpoint)
    ensures LogClose(log, e).written == log.written && LogClose(log, e).received == log.received
  {
    assert log.received + [] == log.received;
  }

  lemma {:induction false} RunAgrees(steps: seq<Step>)
    requires Run(INITIAL, steps)
    ensures Agrees(After(INITIAL, steps), Observed(steps))
    decreases |steps|
  {
    if steps != [] {
      var front, last := steps[..|steps| - 1], steps[|steps| - 1];
      RunSnoc(INITIAL, steps);
      RunAgrees(front);
      ReachableInv(front);
      var m, a := After(INITIAL, front), Observed(front);
      hide Agrees, Observe, PhaseInv, SourceInv, DataInv, Run, After, Enabled, Next;
      match last
      case HandleRead(result) => ReadAgrees(m, a, result);
      case HandleWrite(size, errno) => WriteAgrees(m, a, size, errno);
      case Receive(_) => CallAgrees(m, a, last);
      case SendCall(_) => CallAgrees(m, a, last);
      case _ => OtherAgrees(m, a, last);
    }
  }

  // ---- Conservation ----

  /** In every reachable state, before, while and after connecting: accepted plus unsent bytes
      are the sources handed to send() since the last connection ended, in order; the popped
      ones are exactly the first so many, wholly accepted, and exactly their callbacks ran. */
  lemma SocketSenderConservation(steps: seq<Step>)
    requires Run(INITIAL, steps)
    ensures var m, calls := After(INITIAL, steps), Observed(steps).sends;
      && AllValid(calls) && AllValid(m.s.ep.queue)
      && m.log.sent + Unsent(m.s.ep.queue) == Enqueued(calls)
      && |calls| == m.log.popped + |m.s.ep.queue|
      && Enqueued(calls[..m.log.popped]) <= m.log.sent
      && m.log.fired == Tags(calls[..m.log.popped])
      && (forall i | 0 < i < |m.s.ep.queue| :: m.s.ep.queue[i] == calls[m.log.popped + i])
  {
    hide Run, After, Observed, Enqueued, Unsent, Tags, SenderInv, ReaderInv, PhaseInv, SourceInv, SinkInv, Finished;
    ReachableInv(steps);
    RunAgrees(steps);
    var m := After(INITIAL, steps);
    SenderInvMeans(m.s.ep.queue, m.log);
  }

  /** Of every connection that ended, whatever ended it: the bytes accepted are a prefix of
      the sources handed to send() for it, and exactly the callbacks of its wholly accepted,
      popped sources ran. */
  lemma SocketSentIsPrefix(steps: seq<Step>)
    requires Run(INITIAL, steps)
    ensures var past, ended := After(INITIAL, steps).past, Observed(steps).ended;
      && |past| == |ended|
      && forall i | 0 <= i < |ended| ::
           var log, calls := past[i], ended[i].sends;
           && log.popped <= |calls| && AllValid(calls) && AllValid(calls[..log.popped])
           && Enqueued(calls[..log.popped]) <= log.sent <= Enqueued(calls)
           && log.fired == Tags(calls[..log.popped])
  {
    ReachableInv(steps);
    RunAgrees(steps);
    hide Run, After, Observed, Enqueued, Tags, SenderInv, ReaderInv, PhaseInv, SourceInv, SinkInv;
    var past := After(INITIAL, steps).past;
    assert forall i | 0 <= i < |past| :: past[i] in past && Finished(past[i]);
  }

  /** Of every ended connection, what its sinks gained, in order, is exactly what recv()
      delivered on it, followed after an end of file or error by the unread extension of the
      last sink; and every bounded sink reported complete held its maximum. */
  lemma SocketEndedReaders(steps: seq<Step>)
    requires Run(INITIAL, steps)
    ensures var past, ended := After(INITIAL, steps).past, Observed(steps).ended;
      && |past| == |ended|
      && forall i | 0 <= i < |ended| ::
           && Concat(past[i].retired) == ended[i].received + past[i].junk
           && forall c | c in past[i].completed :: c.maximum == MINIMAL_CAPACITY || |c.data| == c.maximum
  {
    ReachableInv(steps);
    RunAgrees(steps);
    hide Run, After, Observed, SenderFinished, SenderInv, PhaseInv, SourceInv, SinkInv, Concat;
    var past := After(INITIAL, steps).past;
    forall i | 0 <= i < |past|
      ensures Finished(past[i]) && Concat(past[i].retired) == past[i].received + past[i].junk
    {
      assert past[i] in past;
      assert Concat(past[i].retired) + [] == Concat(past[i].retired);
    }
  }

  /** What the sinks gained while installed, in order, is exactly what recv() delivered since
      the last connection ended; a sink's earlier bytes are still its beginning; bounded sinks
      stay below their maximum while installed, and hold it when complete. */
  lemma SocketReaderConservation(steps: seq<Step>)
    requires Run(INITIAL, steps)
    ensures var ep, log := After(INITIAL, steps).s.ep, After(INITIAL, steps).log;
      && Concat(log.retired) + Gained(ep.reader, log) == Observed(steps).received
      && (ep.reader.Some? ==>
            && ep.reader.value.sink.data == log.base + Gained(ep.reader, log)
            && AcceptableSink(ep.reader.value.sink)
            && (ep.reader.value.sink.maximum == MINIMAL_CAPACITY ==> Gained(ep.reader, log) == []))
      && (forall c | c in log.completed :: c.maximum == MINIMAL_CAPACITY || |c.data| == c.maximum)
  {
    ReachableInv(steps);
    RunAgrees(steps);
    hide Run, After, Observed, SenderInv, PhaseInv, SourceInv, SinkInv, Finished, Concat;
    var log := After(INITIAL, steps).log;
    assert log.received + [] == log.received;
  }

  // ---- The handler's two assertions ----

  /** The assertion on the sink holds when the handler treats a read event if and only if the
      last of the calls that set or drop the sink, connection ends included, installed one. */
  lemma ReadAssertionExact(steps: seq<Step>)
    requires Run(INITIAL, steps) && Read in After(INITIAL, steps).pending
    ensures ReadAssertion(After(INITIAL, steps)) <==> Observed(steps).sink
  {
    RunAgrees(steps);
    hide Run, After, Observed;
  }

  /** Since the last delivery the connection did not end, or a send() came after that. */
  ghost predicate SourceSinceDelivery(steps: seq<Step>) {
    steps != [] &&
    var front, last := steps[..|steps| - 1], steps[|steps| - 1];
    if last.Deliver? || last.SendCall? then true
    else if Ends(last) && Observed(front).up then false
    else SourceSinceDelivery(front)
  }

  lemma SourceStep(m: Machine, step: Step)
    requires PhaseInv(m) && SourceInv(m) && Enabled(m, step) && Write in Next(m, step).pending
    ensures step.Deliver? || Write in m.pending
    ensures WriteAssertion(Next(m, step)) <==>
      (step.Deliver? || step.SendCall? || (!(Ends(step) && m.s.ep.isOpen) && WriteAssertion(m)))
  {
    if step.HandleRead? {
      ReadHalfPhase(m.s.ep, step.result);
    }
    hide ReadHalf, WriteHalf, LogInstall, LogSubmit, LogWrite, LogRead, PossibleRead;
  }

  /** The assertion on the queue holds when the handler treats a write event if and only if
      the connection did not end since the delivery, or a send() came after that. */
  lemma {:induction false} WriteAssertionExact(steps: seq<Step>)
    requires Run(INITIAL, steps) && Write in After(INITIAL, steps).pending
    ensures WriteAssertion(After(INITIAL, steps)) <==> SourceSinceDelivery(steps)
    decreases |steps|
  {
    if steps != [] {
      var front, last := steps[..|steps| - 1], steps[|steps| - 1];
      RunSnoc(INITIAL, steps);
      ReachableInv(front);
      RunAgrees(front);
      SourceStep(After(INITIAL, front), last);
      hide Run, After, Inv, Next, Enabled, Ends, Observed;
      if Write in After(INITIAL, front).pending {
        WriteAssertionExact(front);
      }
    }
  }

  /** The first fails on data that arrives before the first receive(): a Socket watches for
      readability from the start. */
  lemma ReadBeforeReceive()
    ensures exists steps ::
              Run(INITIAL, steps) && Read in After(INITIAL, steps).pending && !ReadAssertion(After(INITIAL, steps))
  {
    var steps := [];
    OneStep(INITIAL, steps, Connect(Immediate));
    steps := steps + [Connect(Immediate)];
    OneStep(INITIAL, steps, Deliver({Read}));
    steps := steps + [Deliver({Read})];
    assert Read in After(INITIAL, steps).pending;
  }

  // ---- Write interest of a connection ----

  ghost predicate WriteTracksQueue(m: Machine) {
    Write in m.s.ep.events <==> m.s.ep.queue != []
  }

  /** Sources are queued and the loop is not armed for them. */
  ghost predicate Unarmed(m: Machine) {
    && m.s.ep.isOpen && m.s.ep.queue != [] && Write !in m.s.ep.events
    && (m.s.handler == Some(EventHandler) ==> m.s.ep.registered.Some? && Write !in m.s.ep.registered.value)
  }

  /** Nor is a write event still to be handled: no step but the connection's end will send. */
  ghost predicate Stranded(m: Machine) {
    Unarmed(m) && Write !in m.pending
  }

  predicate Begins(step: Step) {
    step.OpenHandle? || step.Connect?
  }

  predicate StartsConnection(step: Step) {
    step.OpenHandle? || (step.Connect? && !step.how.Failed?)
  }

  lemma StartTracksIff(m: Machine, step: Step)
    requires PhaseInv(m) && Enabled(m, step) && StartsConnection(step)
    ensures var m' := Next(m, step);
      && m'.s.ep.isOpen && m'.s.ep.queue == SockClosed(m.s).ep.queue && m'.pending == m.pending
      && (WriteTracksQueue(m') <==> m'.s.ep.queue == [])
      && (m'.s.ep.queue != [] ==> Unarmed(m') && !m.s.ep.isOpen && m'.log == m.log)
  {
  }

  lemma StepKeepsTracking(m: Machine, step: Step)
    requires PhaseInv(m) && WriteTracksQueue(m) && Enabled(m, step) && !Begins(step)
    requires Next(m, step).s.ep.isOpen
    ensures m.s.ep.isOpen && WriteTracksQueue(Next(m, step))
  {
    HalvesPhase(m, step);
    hide ReadHalf, WriteHalf, PossibleRead, PossibleWrite, LogInstall, LogSubmit, LogWrite, LogRead;
  }

  // ReadHalfPhase and WriteHalfPhase for whichever half `step` runs.
  lemma HalvesPhase(m: Machine, step: Step)
    requires PhaseInv(m) && Enabled(m, step)
    ensures step.HandleRead? ==>
              var e' := ReadHalf(m.s.ep, step.result).ep;
              if !e'.isOpen then e' == Closed(m.s.ep)
              else (e' == m.s.ep.(reader := e'.reader) && e'.reader.Some?) || e' == ReadCompleted(m.s.ep)
    ensures step.HandleWrite? ==>
              var e' := WriteHalf(m.s.ep, step.size, step.errno).0;
              if !e'.isOpen then e' == Closed(m.s.ep) else
              || (e' == m.s.ep.(queue := e'.queue) && e'.queue != [])
              || e' == UpdateEvents(m.s.ep.(queue := []), m.s.ep.events - {Write})
  {
    if step.HandleRead? {
      ReadHalfPhase(m.s.ep, step.result);
    } else if step.HandleWrite? {
      WriteHalfPhase(m.s.ep, step.size, step.errno);
    }
  }

  lemma StepKeepsStranded(m: Machine, step: Step)
    requires PhaseInv(m) && Stranded(m) && Enabled(m, step) && !Begins(step)
    requires Next(m, step).s.ep.isOpen
    ensures Stranded(Next(m, step))
    ensures Next(m, step).log.sent == m.log.sent && m.s.ep.queue <= Next(m, step).s.ep.queue
  {
    HalvesPhase(m, step);
    hide ReadHalf, WriteHalf, PossibleRead, PossibleWrite, LogWrite;
  }

  ghost predicate NoNewConnection(steps: seq<Step>) {
    forall s | s in steps :: !Begins(s)
  }

  lemma StaysDownStep(m: Machine, step: Step)
    requires PhaseInv(m) && !m.s.ep.isOpen && Enabled(m, step) && !Begins(step)
    ensures !Next(m, step).s.ep.isOpen
  {
    hide LogInstall, LogSubmit, LogWrite, LogRead, SockReadHalf, SockWriteHalf, PossibleRead, PossibleWrite;
  }

  lemma {:induction false} StaysDown(m: Machine, steps: seq<Step>)
    requires Inv(m) && !m.s.ep.isOpen && Run(m, steps) && NoNewConnection(steps)
    ensures !After(m, steps).s.ep.isOpen
    decreases |steps|
  {
    if steps != [] {
      StaysDownStep(m, steps[0]);
      StepKeepsInv(m, steps[0]);
      hide Inv, Next, Enabled;
      StaysDown(Next(m, steps[0]), steps[1..]);
    }
  }

  lemma {:induction false} OpenRunTracks(m: Machine, steps: seq<Step>)
    requires Inv(m) && Run(m, steps) && NoNewConnection(steps) && After(m, steps).s.ep.isOpen
    ensures WriteTracksQueue(m) ==> WriteTracksQueue(After(m, steps))
    ensures Stranded(m) ==> Stranded(After(m, steps)) && After(m, steps).log.sent == m.log.sent
    decreases |steps|
  {
    if steps != [] {
      var m' := Next(m, steps[0]);
      StepKeepsInv(m, steps[0]);
      if !m'.s.ep.isOpen {
        StaysDown(m', steps[1..]);
      } else {
        OpenRunTracks(m', steps[1..]);
        if WriteTracksQueue(m) {
          StepKeepsTracking(m, steps[0]);
        }
        if Stranded(m) {
          StepKeepsStranded(m, steps[0]);
        }
      }
    }
  }

  /** The sources handed to send() among `steps`. */
  function Sends(steps: seq<Step>): seq<Send> {
    if steps == [] then []
    else (if steps[0].SendCall? then [steps[0].send] else []) + Sends(steps[1..])
  }

  /** The first write half among `steps`: what came before it, and how many bytes it sent. */
  function FirstWrite(steps: seq<Step>): Option<(seq<Step>, int)> {
    if steps == [] then None
    else if steps[0].HandleWrite? then Some(([], steps[0].size))
    else
      match FirstWrite(steps[1..])
      case None => None
      case Some(found) => Some(([steps[0]] + found.0, found.1))
  }

  /** The first write half sends all of the one source queued, before another is added. */
  ghost predicate Emptied(queued: seq<Send>, steps: seq<Step>) {
    && FirstWrite(steps).Some? && |queued| == 1 && queued[0].Valid()
    && Sends(FirstWrite(steps).value.0) == [] && FirstWrite(steps).value.1 == |queued[0].Payload()|
  }

  /** What the first write half, if any, sends of the front source. */
  ghost function StaleBytes(queued: seq<Send>, steps: seq<Step>): seq<byte> {
    if FirstWrite(steps).Some? && queued != [] && queued[0].Valid()
       && 0 <= FirstWrite(steps).value.1 <= |queued[0].Payload()|
    then queued[0].Payload()[..FirstWrite(steps).value.1] else []
  }

  // A step other than a write half leaves the loop unarmed and delivers no write event.
  lemma StepKeepsUnarmed(m: Machine, step: Step)
    requires PhaseInv(m) && Unarmed(m) && Enabled(m, step) && !Begins(step) && !step.HandleWrite?
    requires Next(m, step).s.ep.isOpen
    ensures var m' := Next(m, step);
      && Unarmed(m') && m'.log.sent == m.log.sent && m'.s.ep.queue == m.s.ep.queue + Sends([step])
      && (Write in m'.pending ==> Write in m.pending)
  {
    HalvesPhase(m, step);
    hide ReadHalf, WriteHalf, PossibleRead, PossibleWrite, LogWrite;
    assert m.s.ep.queue + [] == m.s.ep.queue && [step][1..] == [];
  }

  // A write half sends from the front; only if that empties the queue is the mask right again.
  lemma WriteWhileUnarmed(m: Machine, step: Step)
    requires PhaseInv(m) && Unarmed(m) && Enabled(m, step) && step.HandleWrite?
    requires Next(m, step).s.ep.isOpen
    ensures var m', front := Next(m, step), m.s.ep.queue[0];
      && Write in m.pending && front.Valid() && 0 <= step.size <= |front.Payload()|
      && m'.log.sent == m.log.sent + front.Payload()[..step.size]
      && if |m.s.ep.queue| == 1 && step.size == |front.Payload()| then WriteTracksQueue(m') else Stranded(m')
  {
    WriteHalfPhase(m.s.ep, step.size, step.errno);
    if step.size >= 0 {
      WriteSends(m.s.ep, step.size, step.errno, m.log);
    }
    hide WriteHalf, LogWrite;
  }

  lemma WriteSends(e: Endpoint, size: nat, errno: int, log: Log)
    requires PossibleWrite(e, size)
    ensures size <= |e.queue[0].Payload()|
    ensures LogWrite(log, e, size).sent == log.sent + e.queue[0].Payload()[..size]
    ensures WriteHalf(e, size, errno).0.queue == [] <==> |e.queue| == 1 && size == |e.queue[0].Payload()|
  {
    var front := e.queue[0];
    assert front.Payload()[..size] == front.data[front.progress..front.progress + size];
    hide WrittenTags;
  }

  lemma {:induction false} UnarmedRun(m: Machine, steps: seq<Step>)
    requires Inv(m) && Unarmed(m) && Run(m, steps) && NoNewConnection(steps) && After(m, steps).s.ep.isOpen
    ensures var m', queued := After(m, steps), m.s.ep.queue;
      && (FirstWrite(steps).Some? ==> Write in m.pending)
      && (WriteTracksQueue(m') <==> Emptied(queued, steps))
      && (!Emptied(queued, steps) ==>
            && Unarmed(m') && m'.log.sent == m.log.sent + StaleBytes(queued, steps)
            && (FirstWrite(steps).Some? || Write !in m.pending ==> Stranded(m')))
    decreases |steps|
  {
    if steps == [] {
      assert m.log.sent + [] == m.log.sent;
    } else {
      var step, rest, m1 := steps[0], steps[1..], Next(m, steps[0]);
      StepKeepsInv(m, step);
      if !m1.s.ep.isOpen {
        StaysDown(m1, rest);
      } else {
        assert steps == [step] + rest;
        if step.HandleWrite? {
          WriteWhileUnarmed(m, step);
          OpenRunTracks(m1, rest);
          WriteFirst(m.s.ep.queue, step, rest);
        } else {
          StepKeepsUnarmed(m, step);
          UnarmedRun(m1, rest);
          LaterWrite(m.s.ep.queue, step, rest);
        }
        hide Inv, Next, Enabled, Sends, FirstWrite, Emptied, StaleBytes;
      }
    }
  }

  lemma WriteFirst(queued: seq<Send>, step: Step, rest: seq<Step>)
    requires queued != [] && queued[0].Valid() && step.HandleWrite? && 0 <= step.size <= |queued[0].Payload()|
    ensures FirstWrite([step] + rest).Some?
    ensures Emptied(queued, [step] + rest) <==> |queued| == 1 && step.size == |queued[0].Payload()|
    ensures StaleBytes(queued, [step] + rest) == queued[0].Payload()[..step.size]
  {
    assert Sends([]) == [];
  }

  // Before the first write half the queue only grows at its end.
  lemma LaterWrite(queued: seq<Send>, step: Step, rest: seq<Step>)
    requires queued != [] && !step.HandleWrite?
    ensures FirstWrite([step] + rest).Some? <==> FirstWrite(rest).Some?
    ensures Emptied(queued, [step] + rest) <==> Emptied(queued + Sends([step]), rest)
    ensures StaleBytes(queued, [step] + rest) == StaleBytes(queued + Sends([step]), rest)
  {
    assert ([step] + rest)[1..] == rest && [step][1..] == [] && queued + [] == queued;
    assert (queued + Sends([step]))[0] == queued[0];
    if FirstWrite(rest).Some? {
      var first := FirstWrite(rest).value.0;
      assert ([step] + first)[1..] == first;
      assert Sends([step] + first) == Sends([step]) + Sends(first);
    }
  }

  /** From a connect() (immediate or in progress) or open() on, in every state of that
      connection under every interleaving: if nothing was queued before, Write is in the mask
      exactly when the queue is non-empty.  If something was, it is so only once the one source
      queued was sent whole by a write event delivered before the connect() or open() and
      handled after it (on the descriptor number of the old connection); otherwise what that
      one event sends of the front source, if it is there, is all that is ever sent on the
      connection. */
  lemma WriteInterestExact(before: seq<Step>, start: Step, steps: seq<Step>)
    requires Run(INITIAL, before) && Enabled(After(INITIAL, before), start) && StartsConnection(start)
    requires Run(Next(After(INITIAL, before), start), steps) && NoNewConnection(steps)
    requires After(Next(After(INITIAL, before), start), steps).s.ep.isOpen
    ensures var m0 := After(INITIAL, before);
      var m, queued := After(Next(m0, start), steps), SockClosed(m0.s).ep.queue;
      && (WriteTracksQueue(m) <==> queued == [] || Emptied(queued, steps))
      && (queued != [] ==>
            && (FirstWrite(steps).Some? ==> Write in m0.pending)
            && (!Emptied(queued, steps) ==>
                  && m.log.sent == StaleBytes(queued, steps)
                  && (FirstWrite(steps).Some? || Write !in m0.pending ==> Stranded(m))))
  {
    var m0 := After(INITIAL, before);
    ReachableInv(before);
    DownSendsNothing(before);
    StartTracksIff(m0, start);
    StepKeepsInv(m0, start);
    var m1 := Next(m0, start);
    if m1.s.ep.queue == [] {
      OpenRunTracks(m1, steps);
    } else {
      UnarmedRun(m1, steps);
      assert [] + StaleBytes(m1.s.ep.queue, steps) == StaleBytes(m1.s.ep.queue, steps);
    }
    hide Inv, Next, Enabled, Run, After;
  }

  /** What is queued before a connection: nothing if the socket was open, otherwise every
      source handed to send() since the last connection ended, as it was handed over. */
  lemma QueuedBefore(before: seq<Step>)
    requires Run(INITIAL, before)
    ensures var a := Observed(before);
      SockClosed(After(INITIAL, before).s).ep.queue == if a.up then [] else a.sends
  {
    RunAgrees(before);
    ReachableInv(before);
    DownSendsNothing(before);
    var m := After(INITIAL, before);
    PoppedAreSent(m.s.ep.queue, m.log);
    if !m.s.ep.isOpen {
      NothingSentYet(m.s.ep.queue, m.log);
    }
    hide Run, After, Observed, SinkInv, ReaderInv, Finished, Conserved, Tags;
  }

  lemma NothingSentYet(queue: seq<Send>, log: Log)
    requires SenderInv(queue, log) && log.sent == [] && log.popped == 0
    ensures queue == log.written
  {
    PoppedAreSent(queue, log);
    hide Conserved, Tags;
    assert log.written[..0] == [];
    if queue != [] {
      assert queue[0].data[log.written[0].progress..queue[0].progress] == [];
      assert queue[0] == log.written[0];
    }
  }

  // While down nothing is sent or popped.
  lemma {:induction false} DownSendsNothing(steps: seq<Step>)
    requires Run(INITIAL, steps)
    ensures var m := After(INITIAL, steps); !m.s.ep.isOpen ==> m.log.popped == 0 && m.log.sent == []
    decreases |steps|
  {
    if steps != [] {
      var front, last := steps[..|steps| - 1], steps[|steps| - 1];
      RunSnoc(INITIAL, steps);
      ReachableInv(front);
      DownSendsNothing(front);
      if !After(INITIAL, steps).s.ep.isOpen {
        DownStep(After(INITIAL, front), last);
      }
    }
  }

  lemma DownStep(m: Machine, step: Step)
    requires PhaseInv(m) && Enabled(m, step) && !Next(m, step).s.ep.isOpen
    requires !m.s.ep.isOpen ==> m.log.popped == 0 && m.log.sent == []
    ensures Next(m, step).log.popped == 0 && Next(m, step).log.sent == []
  {
    HalvesPhase(m, step);
    hide ReadHalf, WriteHalf, PossibleRead, PossibleWrite, LogRead, LogWrite;
  }

  /** A source handed over before connect() stays behind: a run that ends connected and idle
      with a queued source nobody will send on this connection. */
  lemma SendBeforeConnectStrands()
    ensures exists steps :: Run(INITIAL, steps) && Idle(After(INITIAL, steps)) && After(INITIAL, steps).s.connected
                            && Stranded(After(INITIAL, steps))
  {
    var send := SendCall(Send([0], 0, None));
    var steps := [];
    OneStep(INITIAL, steps, send);
    steps := steps + [send];
    OneStep(INITIAL, steps, Connect(Immediate));
    steps := steps + [Connect(Immediate)];
    assert Stranded(After(INITIAL, steps));
  }

  /** `before`, then connect(), then `steps` send the source that was queued before. */
  ghost predicate SendsOlderSource(before: seq<Step>, steps: seq<Step>) {
    && Run(INITIAL, before) && Enabled(After(INITIAL, before), Connect(Immediate))
    && var m0 := After(INITIAL, before);
       && SockClosed(m0.s).ep.queue == [Send([7], 0, None)]
       && Run(Next(m0, Connect(Immediate)), steps) && NoNewConnection(steps)
       && var m := After(Next(m0, Connect(Immediate)), steps);
          m.s.connected && m.s.ep.queue == [] && m.log.sent == [7]
  }

  /** Unless a write event of the connection before is still to be handled: a run in which a
      source handed over before connect() is sent, whole, on the connection. */
  lemma StaleWriteEventSends()
    ensures exists before, steps :: SendsOlderSource(before, steps)
  {
    var second := SendCall(Send([7], 0, None));
    var before := DeliveredWriteEvent();
    OneStep(INITIAL, before, Close);
    before := before + [Close];
    OneStep(INITIAL, before, second);
    before := before + [second];
    StaleWriteEnds(After(INITIAL, before));
    assert SendsOlderSource(before, [HandleWrite(1, 0)]);
  }

  // A connected socket whose handler has yet to treat a write event.
  lemma DeliveredWriteEvent() returns (before: seq<Step>)
    ensures Run(INITIAL, before)
    ensures var m := After(INITIAL, before); m.s.ep.isOpen && !m.switching && m.pending == {Write}
  {
    var send := SendCall(Send([0], 0, None));
    before := [];
    OneStep(INITIAL, before, Connect(Immediate));
    before := before + [Connect(Immediate)];
    OneStep(INITIAL, before, send);
    before := before + [send];
    assert Write in After(INITIAL, before).s.ep.registered.value;
    OneStep(INITIAL, before, Deliver({Write}));
    before := before + [Deliver({Write})];
  }

  lemma StaleWriteEnds(m0: Machine)
    requires !m0.s.ep.isOpen && !m0.switching && m0.pending == {Write}
    requires m0.s.ep.queue == [Send([7], 0, None)] && m0.log.sent == []
    ensures Run(Next(m0, Connect(Immediate)), [HandleWrite(1, 0)])
    ensures var m := After(Next(m0, Connect(Immediate)), [HandleWrite(1, 0)]);
      m.s.connected && m.s.ep.queue == [] && m.log.sent == [7]
  {
    var m1 := Next(m0, Connect(Immediate));
    OneStep(m1, [], HandleWrite(1, 0));
    assert [] + [HandleWrite(1, 0)] == [HandleWrite(1, 0)];
  }

  // ---- Registration, and calls from another thread inside onConnect ----

  ghost predicate Registered(m: Machine) {
    (m.s.connected || m.switching) ==> m.s.ep.registered == Some(m.s.ep.events)
  }

  /** A run in which no other thread calls receive() or send() inside onConnect. */
  ghost predicate QuietRun(m: Machine, steps: seq<Step>)
    requires Run(m, steps)
    decreases |steps|
  {
    steps == [] ||
    (&& (m.switching ==> !UserCall(steps[0]))
     && QuietRun(Next(m, steps[0]), steps[1..]))
  }

  predicate UserCall(step: Step) {
    step.Receive? || step.SendCall?
  }

  lemma StepKeepsRegistered(m: Machine, step: Step)
    requires PhaseInv(m) && Registered(m) && Enabled(m, step)
    requires m.switching ==> !UserCall(step)
    ensures Registered(Next(m, step))
  {
    HalvesPhase(m, step);
    hide ReadHalf, WriteHalf, PossibleRead, PossibleWrite, LogInstall, LogSubmit, LogWrite, LogRead;
  }

  lemma {:induction false} QuietRunRegistered(m: Machine, steps: seq<Step>)
    requires Inv(m) && Registered(m) && Run(m, steps) && QuietRun(m, steps)
    ensures Registered(After(m, steps))
    decreases |steps|
  {
    if steps != [] {
      StepKeepsInv(m, steps[0]);
      StepKeepsRegistered(m, steps[0]);
      QuietRunRegistered(Next(m, steps[0]), steps[1..]);
    }
  }

  /** Everything sent while connecting is armed for transmission as soon as onConnect
      succeeds: in a quiet run, with nothing queued before the connect(), a connected socket
      is watched for writability exactly when its queue is non-empty. */
  lemma ArmedOnceConnected(before: seq<Step>, start: Step, steps: seq<Step>)
    requires Run(INITIAL, before) && Enabled(After(INITIAL, before), start) && StartsConnection(start)
    requires SockClosed(After(INITIAL, before).s).ep.queue == []
    requires Run(Next(After(INITIAL, before), start), steps) && NoNewConnection(steps)
    requires QuietRun(Next(After(INITIAL, before), start), steps)
    requires After(Next(After(INITIAL, before), start), steps).s.connected
    ensures var ep := After(Next(After(INITIAL, before), start), steps).s.ep;
      ep.registered == Some(ep.events) && (Write in ep.registered.value <==> ep.queue != [])
  {
    var m0 := After(INITIAL, before);
    ReachableInv(before);
    StepKeepsInv(m0, start);
    RunKeepsInv(Next(m0, start), steps);
    assert Registered(Next(m0, start));
    QuietRunRegistered(Next(m0, start), steps);
    WriteInterestExact(before, start, steps);
    hide SourceInv, DataInv, Next, Enabled, Run, After, QuietRun;
  }

  /** What the last receive() among `calls` handed over, if there was one. */
  function LastReceive(calls: seq<Step>): Option<Option<Reader>> {
    if calls == [] then None
    else
      var later := LastReceive(calls[1..]);
      if later.Some? then later else if calls[0].Receive? then Some(calls[0].reader) else None
  }

  predicate AllUserCalls(calls: seq<Step>) {
    forall c | c in calls :: UserCall(c)
  }

  /** What user calls do to a socket that is not connected yet: the mask is only remembered. */
  lemma {:induction false} CallsBeforeConnected(m: Machine, calls: seq<Step>)
    requires !m.s.connected && Run(m, calls) && AllUserCalls(calls)
    ensures var m', sends, last := After(m, calls), Sends(calls), LastReceive(calls);
      && !m'.s.connected && m'.s.handler == m.s.handler && m'.s.ep.registered == m.s.ep.registered
      && m'.switching == m.switching && m'.pending == m.pending
      && m'.s.ep.queue == m.s.ep.queue + sends
      && m'.s.ep.reader == (if last.Some? then last.value else m.s.ep.reader)
      && (Write in m'.s.ep.events <==> Write in m.s.ep.events || (m.s.ep.queue == [] && sends != []))
      && (Read in m'.s.ep.events <==> if last.Some? then last.value.Some? else Read in m.s.ep.events)
    decreases |calls|
  {
    if calls == [] {
      assert m.s.ep.queue + [] == m.s.ep.queue;
    } else {
      assert UserCall(calls[0]);
      var m1, own := Next(m, calls[0]), Sends([calls[0]]);
      OneCall(m, calls[0]);
      hide Next, Enabled;
      CallsBeforeConnected(m1, calls[1..]);
      Associative(m.s.ep.queue, if calls[0].SendCall? then [calls[0].send] else [], Sends(calls[1..]));
    }
  }

  lemma OneCall(m: Machine, call: Step)
    requires !m.s.connected && Enabled(m, call) && UserCall(call)
    ensures var m' := Next(m, call);
      && !m'.s.connected && m'.s.handler == m.s.handler && m'.s.ep.registered == m.s.ep.registered
      && m'.switching == m.switching && m'.pending == m.pending
      && m'.s.ep.queue == m.s.ep.queue + (if call.SendCall? then [call.send] else [])
      && m'.s.ep.reader == (if call.Receive? then call.reader else m.s.ep.reader)
      && (Write in m'.s.ep.events <==> Write in m.s.ep.events || (m.s.ep.queue == [] && call.SendCall?))
      && (Read in m'.s.ep.events <==> if call.Receive? then call.reader.Some? else Read in m.s.ep.events)
  {
    hide LogInstall, LogSubmit;
    assert m.s.ep.queue + [] == m.s.ep.queue;
  }

  /** A pending connect with the user calls `during` it, then onConnect with the calls
      `inside` it, made by another thread between registering the mask and raising the flag. */
  ghost predicate ConnectingRun(m: Machine, during: seq<Step>, inside: seq<Step>) {
    && Enabled(m, Connect(InProgress)) && m.pending == {}
    && AllUserCalls(during) && AllUserCalls(inside)
    && Run(Next(m, Connect(InProgress)), during)
    && var m2 := After(Next(m, Connect(InProgress)), during);
       Enabled(m2, Reregister) && Run(Next(m2, Reregister), inside)
       && Enabled(After(Next(m2, Reregister), inside), RaiseFlag)
  }

  ghost function OnceConnected(m: Machine, during: seq<Step>, inside: seq<Step>): Machine
    requires ConnectingRun(m, during, inside)
  {
    var m2 := After(Next(m, Connect(InProgress)), during);
    Next(After(Next(m2, Reregister), inside), RaiseFlag)
  }

  // Every pending connect can go on to onConnect, whatever the calls.
  lemma ConnectingRunGoesOn(m: Machine, during: seq<Step>, inside: seq<Step>)
    requires PhaseInv(m) && Enabled(m, Connect(InProgress)) && m.pending == {}
    requires AllUserCalls(during) && AllUserCalls(inside)
    requires Run(Next(m, Connect(InProgress)), during)
    requires var m2 := After(Next(m, Connect(InProgress)), during);
      Enabled(m2, Reregister) ==> Run(Next(m2, Reregister), inside)
    ensures ConnectingRun(m, during, inside)
  {
    var m1 := Next(m, Connect(InProgress));
    CallsBeforeConnected(m1, during);
    var m3 := Next(After(m1, during), Reregister);
    CallsBeforeConnected(m3, inside);
    hide Run, After;
  }

  /** A pending connect is always watched for writability, the event that ends it, whatever
      calls were made: once no other event is under way, onConnect can run. */
  lemma PendingConnectIsWatched(steps: seq<Step>)
    requires Run(INITIAL, steps) && After(INITIAL, steps).s.handler == Some(ConnectHandler)
    ensures var m := After(INITIAL, steps);
      && m.s.ep.registered == Some({Read, Write}) && !m.s.connected && !m.switching
      && (m.pending == {} ==> Enabled(m, Reregister))
  {
    ReachableInv(steps);
    hide Run, After;
  }

  /** The last receive() while connecting withdrew the sink. */
  predicate Withdrawn(during: seq<Step>) {
    LastReceive(during).Some? && LastReceive(during).value.None?
  }

  /** Calls inside onConnect, exactly.  The loop watches the mask if and only if
      - no send() was the first since nothing was queued, and
      - the last receive() inside, if any, agrees with the last one before.
      A queued source is unwatched if and only if something was queued before connect(), or
      the first send() was made inside; an installed sink, if and only if the sink was
      withdrawn before and installed inside.  Readability is watched for without a sink, so
      that data will trip the assertion, if and only if the sink was not withdrawn before,
      and was withdrawn inside or never handed over. */
  lemma OnConnectRaceExact(m: Machine, during: seq<Step>, inside: seq<Step>)
    requires PhaseInv(m) && ConnectingRun(m, during, inside)
    ensures var ep, queued := OnceConnected(m, during, inside).s.ep, SockClosed(m.s).ep.queue;
      var last := LastReceive(inside);
      && ep.registered.Some?
      && (ep.registered == Some(ep.events) <==>
            && (queued != [] || Sends(during) != [] || Sends(inside) == [])
            && (last.Some? ==> (last.value.None? <==> Withdrawn(during))))
      && (ep.queue != [] && Write !in ep.registered.value <==>
            queued != [] || (Sends(during) == [] && Sends(inside) != []))
      && (ep.reader.Some? && Read !in ep.registered.value <==>
            Withdrawn(during) && last.Some? && last.value.Some?)
      && (ep.reader.None? && Read in ep.registered.value <==>
            && !Withdrawn(during)
            && if last.Some? then last.value.None?
               else LastReceive(during).None? && SockClosed(m.s).ep.reader.None?)
  {
    var m1 := Next(m, Connect(InProgress));
    var m2 := After(m1, during);
    var m3 := Next(m2, Reregister);
    var m4 := After(m3, inside);
    CallsBeforeConnected(m1, during);
    CallsBeforeConnected(m3, inside);
    RunEvents(m1, during);
    RunEvents(m3, inside);
    assert m1.s.ep.events == {Read} && m1.s.ep.queue == SockClosed(m.s).ep.queue;
    hide Run, After, Sends, LastReceive;
    MaskIsTwoBits(m4.s.ep.events, m2.s.ep.events);
  }

  lemma {:induction false} RunEvents(m: Machine, calls: seq<Step>)
    requires m.s.ep.events <= {Read, Write} && Run(m, calls) && AllUserCalls(calls)
    ensures After(m, calls).s.ep.events <= {Read, Write}
    decreases |calls|
  {
    if calls != [] {
      assert UserCall(calls[0]);
      hide LogInstall, LogSubmit;
      RunEvents(Next(m, calls[0]), calls[1..]);
    }
  }

  lemma MaskIsTwoBits(a: Mask, b: Mask)
    requires a <= {Read, Write} && b <= {Read, Write}
    ensures a == b <==> (Read in a <==> Read in b) && (Write in a <==> Write in b)
  {
  }

  /** A send() in that window leaves a connected, idle socket with a queued source the loop
      does not watch for. */
  lemma OnConnectRaceLosesWakeup()
    ensures exists steps ::
              && Run(INITIAL, steps)
              && var m := After(INITIAL, steps);
                 m.s.connected && Idle(m) && m.s.ep.queue != []
                 && m.s.ep.registered.Some? && Write !in m.s.ep.registered.value
  {
    var send := SendCall(Send([0], 0, None));
    var m0 := INITIAL;
    var steps := [];
    OneStep(m0, steps, Connect(InProgress));
    steps := steps + [Connect(InProgress)];
    OneStep(m0, steps, Reregister);
    steps := steps + [Reregister];
    OneStep(m0, steps, send);
    steps := steps + [send];
    OneStep(m0, steps, RaiseFlag);
    steps := steps + [RaiseFlag];
    var m := After(INITIAL, steps);
    assert m.s.ep.registered == Some({Read});
  }
}
