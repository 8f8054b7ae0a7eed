/** Whole runs of a Socket as a step machine, and the invariants every step keeps. */
module SocketRuns {
  import opened Basics
  import opened Stream
  import opened StreamHistory
  import opened SocketStream

  /** `pending` holds the event bits of a delivered event the handler has yet to treat;
      `switching` marks the loop thread inside onConnect, between registering the mask and
      raising the flag.  `log` is the history since the last connection ended, `past` those
      of the ended connections, `told` every callback made so far, in order. */
  datatype Machine =
    Machine(s: SocketState, pending: Mask, switching: bool, log: Log, past: seq<Log>, told: seq<Call>)

  datatype Step =
    | Connect(how: ConnectResult)
    | OpenHandle
    | SetCloseCallback(onClose: Option<Tag>)
    | Receive(reader: Option<Reader>)
    | SendCall(send: Send)
    | Close
    | ConnectError(error: int)
    | Reregister
    | RaiseFlag
    | Deliver(bits: Mask)
    | HandleRead(result: ReadResult)
    | HandleWrite(size: int, errno: int)
    | HandleError(error: int)

  const INITIAL :=
    Machine(SocketState(Endpoint(false, {}, None, None, [], None), false, None), {}, false, EMPTY_LOG, [], [])

  ghost predicate Idle(m: Machine) {
    m.pending == {} && !m.switching
  }

  /** Which steps may be taken.  receive() and send() come at any moment; connect(), open()
      and close() at any moment but inside onConnect, also between the delivery of an event
      and its handler, which goes on only past its assertions and on a connected socket.  The
      loop reports an error of a pending connection whatever it watches, but its success only
      as writability. */
  ghost predicate Enabled(m: Machine, step: Step) {
    match step
    case Connect(_) => !m.switching
    case OpenHandle => !m.switching
    case SetCloseCallback(_) => true
    case Receive(reader) => reader.Some? ==> AcceptableSink(reader.value.sink)
    case SendCall(send) => send.Valid()
    case Close => !m.switching
    case ConnectError(_) => m.s.handler == Some(ConnectHandler) && Idle(m)
    case Reregister =>
      && m.s.handler == Some(ConnectHandler) && Idle(m)
      && m.s.ep.registered.Some? && Write in m.s.ep.registered.value
    case RaiseFlag => m.switching
    case Deliver(bits) =>
      && Idle(m) && m.s.connected && m.s.handler == Some(EventHandler)
      && bits != {} && m.s.ep.registered.Some? && bits <= m.s.ep.registered.value + {Error, Hup}
    case HandleError(_) => m.pending * {Error, Hup} != {}
    case HandleRead(result) =>
      && Read in m.pending && m.pending !! {Error, Hup} && m.s.connected
      && ReadAssertion(m) && PossibleRead(m.s.ep.reader.value.sink, result)
    case HandleWrite(size, _) =>
      && Write in m.pending && Read !in m.pending && m.pending !! {Error, Hup} && m.s.connected
      && WriteAssertion(m) && PossibleWrite(m.s.ep, size)
  }

  // assert(nullptr != m_receive_sink)
  ghost predicate ReadAssertion(m: Machine) {
    m.s.ep.reader.Some?
  }

  // assert(false == m_send_queue.empty())
  ghost predicate WriteAssertion(m: Machine) {
    m.s.ep.queue != []
  }

  // The history when the socket is closed, if it was open.
  ghost function Ended(m: Machine): Machine {
    if m.s.ep.isOpen then EndedWith(m, LogClose(m.log, m.s.ep)) else m
  }

  ghost function EndedWith(m: Machine, last: Log): Machine {
    m.(log := EMPTY_LOG, past := m.past + [last])
  }

  ghost function Next(m: Machine, step: Step): Machine
    requires Enabled(m, step)
  {
    var Machine(s, pending, _, log, _, told) := m;
    match step
    case Connect(how) => Ended(m).(s := SockConnected(s, how))
    case OpenHandle => Ended(m).(s := SockOpened(s, true))
    case SetCloseCallback(onClose) => m.(s := s.(ep := s.ep.(onClose := onClose)))
    case Receive(reader) => m.(s := SockReceived(s, reader), log := LogInstall(log, s.ep.reader, reader))
    case SendCall(send) => m.(s := SockSent(s, send), log := LogSubmit(log, send))
    case Close => Ended(m).(s := SockClosed(s))
    case ConnectError(error) => Ended(m).(s := SockClosed(s), told := told + CloseCalls(s.ep, error))
    case Reregister => m.(s := Reregistered(s), switching := true)
    case RaiseFlag => m.(s := Flagged(s), switching := false)
    case Deliver(bits) => m.(pending := bits)
    case HandleError(error) => Ended(m).(s := SockClosed(s), pending := {}, told := told + CloseCalls(s.ep, error))
    case HandleRead(result) =>
      var s', told' := SockReadHalf(s, result), told + ReadHalf(s.ep, result).calls;
      if s'.ep.isOpen then m.(s := s', pending := pending - {Read}, log := LogRead(log, s.ep, result), told := told')
      else EndedWith(m, LogRead(log, s.ep, result)).(s := s', pending := {}, told := told')
    case HandleWrite(size, errno) =>
      var s', told' := SockWriteHalf(s, size, errno), told + WriteHalf(s.ep, size, errno).1;
      if s'.ep.isOpen then m.(s := s', pending := pending - {Write}, log := LogWrite(log, s.ep, size), told := told')
      else Ended(m).(s := s', pending := {}, told := told')
  }

  /** How descriptor, flag, handler and registration fit together in every state. */
  ghost predicate PhaseInv(m: Machine) {
    && (!m.s.ep.isOpen ==> !m.s.connected && m.s.handler == None && m.s.ep.registered == None && !m.switching)
    && (m.s.ep.isOpen ==> m.s.handler.Some? && m.s.ep.registered.Some?)
    && (m.s.handler == Some(ConnectHandler) ==>
          !m.switching && !m.s.connected && m.s.ep.registered == Some({Read, Write}))
    && (m.s.handler == Some(EventHandler) ==> (m.switching <==> !m.s.connected))
    && (m.switching ==> m.pending == {})
    && m.s.ep.events <= {Read, Write}
  }

  /** Write is asked for, and watched for by the event handler, only with a source queued. */
  ghost predicate SourceInv(m: Machine) {
    && (Write in m.s.ep.events ==> m.s.ep.queue != [])
    && (m.s.handler == Some(EventHandler) && m.s.ep.registered.Some? && Write in m.s.ep.registered.value ==>
          m.s.ep.queue != [])
  }

  ghost predicate DataInv(m: Machine) {
    && SenderInv(m.s.ep.queue, m.log) && ReaderInv(m.s.ep.reader, m.log) && m.log.junk == []
    && forall l | l in m.past :: Finished(l)
  }

  // What a read or write half does to the fields the phase depends on.
  lemma ReadHalfPhase(e: Endpoint, result: ReadResult)
    requires e.isOpen && e.reader.Some? && PossibleRead(e.reader.value.sink, result)
    ensures var e' := ReadHalf(e, result).ep;
      if !e'.isOpen then e' == Closed(e)
      else (e' == e.(reader := e'.reader) && e'.reader.Some?) || e' == ReadCompleted(e)
    ensures ReadHalf(e, result).ep.isOpen <==> result.Got? && result.bytes != []
  {
  }

  lemma WriteHalfPhase(e: Endpoint, size: int, errno: int)
    requires e.isOpen && PossibleWrite(e, size)
    ensures var e' := WriteHalf(e, size, errno).0;
      if !e'.isOpen then e' == Closed(e)
      else (e' == e.(queue := e'.queue) && e'.queue != []) || e' == UpdateEvents(e.(queue := []), e.events - {Write})
    ensures WriteHalf(e, size, errno).0.isOpen <==> size >= 0
  {
  }

  lemma HandleReadKeepsPhase(m: Machine, result: ReadResult)
    requires PhaseInv(m) && SourceInv(m) && Enabled(m, HandleRead(result))
    ensures PhaseInv(Next(m, HandleRead(result))) && SourceInv(Next(m, HandleRead(result)))
  {
    ReadHalfPhase(m.s.ep, result);
    hide ReadHalf, LogRead, PossibleRead;
  }

  lemma HandleWriteKeepsPhase(m: Machine, size: int, errno: int)
    requires PhaseInv(m) && SourceInv(m) && Enabled(m, HandleWrite(size, errno))
    ensures PhaseInv(Next(m, HandleWrite(size, errno))) && SourceInv(Next(m, HandleWrite(size, errno)))
  {
    WriteHalfPhase(m.s.ep, size, errno);
    hide WriteHalf, LogWrite, PossibleWrite;
  }

  lemma CallKeepsPhase(m: Machine, step: Step)
    requires PhaseInv(m) && SourceInv(m) && Enabled(m, step) && (step.Receive? || step.SendCall?)
    ensures PhaseInv(Next(m, step)) && SourceInv(Next(m, step))
  {
    hide LogInstall, LogSubmit, LogWrite, LogRead, SockReadHalf, SockWriteHalf, PossibleRead, PossibleWrite;
  }

  lemma OtherKeepsPhase(m: Machine, step: Step)
    requires PhaseInv(m) && SourceInv(m) && Enabled(m, step)
    requires !step.Receive? && !step.SendCall? && !step.HandleRead? && !step.HandleWrite?
    ensures PhaseInv(Next(m, step)) && SourceInv(Next(m, step))
  {
    hide LogInstall, LogSubmit, LogWrite, LogRead, SockReadHalf, SockWriteHalf, SockReceived, SockSent,
      PossibleRead, PossibleWrite;
  }

  lemma StepKeepsPhase(m: Machine, step: Step)
    requires PhaseInv(m) && SourceInv(m) && Enabled(m, step)
    ensures PhaseInv(Next(m, step)) && SourceInv(Next(m, step))
  {
    hide PhaseInv, SourceInv, Next, Enabled;
    match step
    case HandleRead(result) => HandleReadKeepsPhase(m, result);
    case HandleWrite(size, errno) => HandleWriteKeepsPhase(m, size, errno);
    case Receive(_) => CallKeepsPhase(m, step);
    case SendCall(_) => CallKeepsPhase(m, step);
    case _ => OtherKeepsPhase(m, step);
  }

  lemma FreshData()
    ensures SenderInv([], EMPTY_LOG) && ReaderInv(None, EMPTY_LOG)
  {
    assert EMPTY_LOG.sent + Unsent([]) == Enqueued([]);
    assert Concat(EMPTY_LOG.retired) == [];
  }

  lemma ReceiveKeepsData(m: Machine, reader: Option<Reader>)
    requires DataInv(m) && Enabled(m, Receive(reader))
    ensures DataInv(Next(m, Receive(reader)))
  {
    InstallKeepsReader(m.s.ep.reader, reader, m.log);
    OtherSideKept(m.s.ep.queue, m.log, LogInstall(m.log, m.s.ep.reader, reader));
    hide SenderInv, ReaderInv, Finished, Gained, AcceptableSink;
  }

  lemma SendKeepsData(m: Machine, send: Send)
    requires DataInv(m) && Enabled(m, SendCall(send))
    ensures DataInv(Next(m, SendCall(send)))
  {
    SubmitKeepsSender(m.s.ep.queue, m.log, send);
    SubmitKeepsReader(m.s.ep.reader, m.log, send);
    hide SenderInv, ReaderInv, Finished;
  }

  // Ending a connection starts a fresh history and keeps the old one.
  lemma EndKeepsData(m: Machine, last: Log, s': SocketState, pending: Mask, told: seq<Call>)
    requires DataInv(m) && ReaderInv(None, last) && s'.ep.queue == [] && s'.ep.reader == None
    requires last.written == m.log.written && last.sent == m.log.sent
    requires last.popped == m.log.popped && last.fired == m.log.fired
    ensures DataInv(EndedWith(m, last).(s := s', pending := pending, told := told))
  {
    FreshData();
    SenderInvFinishes(m.s.ep.queue, m.log);
    FinishedSideKept(m.log, last);
    hide SenderInv, ReaderInv, SenderFinished;
    assert Finished(last);
  }

  lemma CloseKeepsData(m: Machine, s': SocketState, pending: Mask, told: seq<Call>)
    requires DataInv(m) && m.s.ep.isOpen && s'.ep.queue == [] && s'.ep.reader == None
    ensures DataInv(Ended(m).(s := s', pending := pending, told := told))
  {
    CloseRetires(m.s.ep.reader, m.log, m.s.ep);
    EndKeepsData(m, LogClose(m.log, m.s.ep), s', pending, told);
    hide DataInv, ReaderInv;
  }

  lemma HandleReadKeepsData(m: Machine, result: ReadResult)
    requires PhaseInv(m) && DataInv(m) && Enabled(m, HandleRead(result))
    ensures DataInv(Next(m, HandleRead(result)))
  {
    var s' := SockReadHalf(m.s, result);
    ReadHalfPhase(m.s.ep, result);
    ReadKeepsReader(m.s.ep, result, m.log);
    if s'.ep.isOpen {
      OtherSideKept(m.s.ep.queue, m.log, LogRead(m.log, m.s.ep, result));
    } else {
      EndKeepsData(m, LogRead(m.log, m.s.ep, result), s', {}, m.told + ReadHalf(m.s.ep, result).calls);
    }
    hide SenderInv, ReaderInv, Finished, ReadHalf, LogRead, PossibleRead;
  }

  lemma HandleWriteKeepsData(m: Machine, size: int, errno: int)
    requires PhaseInv(m) && DataInv(m) && Enabled(m, HandleWrite(size, errno))
    ensures DataInv(Next(m, HandleWrite(size, errno)))
  {
    var s' := SockWriteHalf(m.s, size, errno);
    WriteHalfPhase(m.s.ep, size, errno);
    if size >= 0 {
      WriteKeepsSender(m.s.ep, size, errno, m.log);
      WriteKeepsReader(m.s.ep, size, m.log);
    } else {
      CloseKeepsData(m, s', {}, m.told + WriteHalf(m.s.ep, size, errno).1);
    }
    hide SenderInv, ReaderInv, Finished, WriteHalf, LogWrite, PossibleWrite;
  }

  // The remaining steps keep queue, sink and history, or end the connection.
  lemma OtherKeepsData(m: Machine, step: Step)
    requires PhaseInv(m) && DataInv(m) && Enabled(m, step)
    requires !step.Receive? && !step.SendCall? && !step.HandleRead? && !step.HandleWrite?
    ensures DataInv(Next(m, step))
  {
    hide LogInstall, LogSubmit, LogWrite, LogRead, SockReadHalf, SockWriteHalf, PossibleRead, PossibleWrite;
    hide SenderInv, ReaderInv, Finished;
    if m.s.ep.isOpen {
      var m' := Next(m, step);
      if m'.past != m.past {
        CloseKeepsData(m, m'.s, m'.pending, m'.told);
      }
    }
  }

  lemma StepKeepsData(m: Machine, step: Step)
    requires PhaseInv(m) && DataInv(m) && Enabled(m, step)
    ensures DataInv(Next(m, step))
  {
    hide PhaseInv, DataInv, Next, Enabled;
    match step
    case Receive(reader) => ReceiveKeepsData(m, reader);
    case SendCall(send) => SendKeepsData(m, send);
    case HandleRead(result) => HandleReadKeepsData(m, result);
    case HandleWrite(size, errno) => HandleWriteKeepsData(m, size, errno);
    case _ => OtherKeepsData(m, step);
  }

  ghost predicate Run(m: Machine, steps: seq<Step>)
    decreases |steps|
  {
    steps == [] || (Enabled(m, steps[0]) && Run(Next(m, steps[0]), steps[1..]))
  }

  ghost function After(m: Machine, steps: seq<Step>): Machine
    requires Run(m, steps)
    decreases |steps|
  {
    if steps == [] then m else After(Next(m, steps[0]), steps[1..])
  }

  ghost predicate Inv(m: Machine) {
    PhaseInv(m) && SourceInv(m) && DataInv(m)
  }

  lemma StepKeepsInv(m: Machine, step: Step)
    requires Inv(m) && Enabled(m, step)
    ensures Inv(Next(m, step))
  {
    hide PhaseInv, SourceInv, DataInv, Next, Enabled;
    StepKeepsPhase(m, step);
    StepKeepsData(m, step);
  }

  lemma {:induction false} RunKeepsInv(m: Machine, steps: seq<Step>)
    requires Inv(m) && Run(m, steps)
    ensures Inv(After(m, steps))
    decreases |steps|
  {
    hide Inv, Next, Enabled;
    if steps != [] {
      StepKeepsInv(m, steps[0]);
      RunKeepsInv(Next(m, steps[0]), steps[1..]);
    }
  }

  lemma ReachableInv(steps: seq<Step>)
    requires Run(INITIAL, steps)
    ensures Inv(After(INITIAL, steps))
  {
    FreshData();
    RunKeepsInv(INITIAL, steps);
  }

  lemma {:induction false} RunSnoc(m: Machine, steps: seq<Step>)
    requires Run(m, steps) && steps != []
    ensures var front, last := steps[..|steps| - 1], steps[|steps| - 1];
      Run(m, front) && Enabled(After(m, front), last) && After(m, steps) == Next(After(m, front), last)
    decreases |steps|
  {
    hide Enabled, Next;
    if |steps| > 1 {
      RunSnoc(Next(m, steps[0]), steps[1..]);
      assert steps[1..][..|steps| - 2] == steps[..|steps| - 1][1..];
    }
  }

  lemma {:induction false} RunAppend(m: Machine, steps: seq<Step>, more: seq<Step>)
    requires Run(m, steps) && Run(After(m, steps), more)
    ensures Run(m, steps + more) && After(m, steps + more) == After(After(m, steps), more)
    decreases |steps|
  {
    hide Enabled, Next;
    if steps == [] {
      assert steps + more == more;
    } else {
      RunAppend(Next(m, steps[0]), steps[1..], more);
      assert (steps + more)[1..] == steps[1..] + more;
    }
  }

  lemma OneStep(m: Machine, steps: seq<Step>, step: Step)
    requires Run(m, steps) && Enabled(After(m, steps), step)
    ensures Run(m, steps + [step]) && After(m, steps + [step]) == Next(After(m, steps), step)
  {
    hide Enabled, Next;
    var m1 := After(m, steps);
    var m2 := Next(m1, step);
    assert [step][1..] == [] && [step][0] == step;
    assert Run(m2, []) && After(m2, []) == m2;
    assert Run(m1, [step]);
    assert After(m1, [step]) == m2;
    RunAppend(m, steps, [step]);
  }
}
