/** FileDescriptorIO as a step machine.  User calls, from any thread, interleave with the
    locked regions of the event handler; the kernel chooses what is delivered, read and
    accepted.  Every reachable state keeps the interest mask in step with the queue and the
    sink, and loses, repeats and reorders no byte in either direction. */
module StreamRuns {
  import opened Basics
  import opened Stream
  import opened StreamHistory

  /** `pending` holds the event bits of a delivered event the handler has yet to treat, `told`
      every callback made so far, in order. */
  datatype Machine = Machine(ep: Endpoint, pending: Mask, log: Log, told: seq<Call>)

  datatype Step =
    | Open
    | SetCloseCallback(onClose: Option<Tag>)
    | ReadCall(reader: Option<Reader>)
    | WriteCall(send: Send)
    | Close
    | Deliver(bits: Mask)
    | HandleRead(result: ReadResult)
    | HandleWrite(size: int, errno: int)
    | HandleError(errno: int)

  const INITIAL := Machine(Endpoint(false, {}, None, None, [], None), {}, EMPTY_LOG, [])

  /** Which steps may be taken.  User calls come at any moment, also between the delivery of
      an event and its handler; read() and write() come only while open, and a sink handed
      over is not already full.  The handler goes on only past its assertions. */
  ghost predicate Enabled(m: Machine, step: Step) {
    match step
    case Open => true
    case SetCloseCallback(_) => true
    case ReadCall(reader) => m.ep.isOpen && (reader.Some? ==> AcceptableSink(reader.value.sink))
    case WriteCall(send) => m.ep.isOpen && send.Valid()
    case Close => true
    case Deliver(bits) =>
      m.pending == {} && bits != {} && m.ep.registered.Some? && bits <= m.ep.registered.value + {Error, Hup}
    case HandleRead(result) => Read in m.pending && ReadAssertion(m) && PossibleRead(m.ep.reader.value.sink, result)
    case HandleWrite(size, _) =>
      Write in m.pending && Read !in m.pending && WriteAssertion(m) && PossibleWrite(m.ep, size)
    case HandleError(_) => m.pending != {} && Read !in m.pending && Write !in m.pending
  }

  // assert(nullptr != m_read_sink)
  ghost predicate ReadAssertion(m: Machine) {
    m.ep.reader.Some?
  }

  // assert(false == m_write_queue.empty())
  ghost predicate WriteAssertion(m: Machine) {
    m.ep.queue != []
  }

  ghost function Next(m: Machine, step: Step): Machine
    requires Enabled(m, step)
  {
    var Machine(e, pending, log, told) := m;
    match step
    case Open => m.(ep := Opened(e), log := EMPTY_LOG)
    case SetCloseCallback(onClose) => m.(ep := e.(onClose := onClose))
    case ReadCall(reader) => m.(ep := Installed(e, reader), log := LogInstall(log, e.reader, reader))
    case WriteCall(send) => m.(ep := Submitted(e, send), log := LogSubmit(log, send))
    case Close => m.(ep := Closed(e), log := LogClose(log, e))
    case Deliver(bits) => m.(pending := bits)
    case HandleRead(result) =>
      var out := ReadHalf(e, result);
      Machine(out.ep, if out.ep.isOpen then pending - {Read} else {}, LogRead(log, e, result), told + out.calls)
    case HandleWrite(size, errno) =>
      var (e', calls) := WriteHalf(e, size, errno);
      Machine(e', if e'.isOpen then pending - {Write} else {},
              if e'.isOpen then LogWrite(log, e, size) else LogClose(log, e), told + calls)
    case HandleError(errno) => Machine(Closed(e), {}, LogClose(log, e), told + CloseCalls(e, errno))
  }

  /** The mask follows the queue and the sink, and the loop watches exactly the mask. */
  ghost predicate MaskInv(e: Endpoint) {
    if e.isOpen then
      && e.events <= {Read, Write}
      && (Write in e.events <==> e.queue != [])
      && (Read in e.events <==> e.reader.Some?)
      && e.registered == Some(e.events)
    else e.events == {} && e.registered == None && e.reader == None && e.queue == []
  }

  ghost predicate Inv(m: Machine) {
    && MaskInv(m.ep)
    && (m.ep.isOpen ==> SenderInv(m.ep.queue, m.log) && m.log.junk == [])
    && (!m.ep.isOpen ==> SenderFinished(m.log))
    && ReaderInv(m.ep.reader, m.log)
  }

  lemma CloseKeepsInv(m: Machine, pending: Mask, told: seq<Call>)
    requires Inv(m) && m.ep.isOpen
    ensures Inv(Machine(Closed(m.ep), pending, LogClose(m.log, m.ep), told))
  {
    SenderInvFinishes(m.ep.queue, m.log);
    FinishedSideKept(m.log, LogClose(m.log, m.ep));
    CloseRetires(m.ep.reader, m.log, m.ep);
    hide SenderInv, ReaderInv, SenderFinished;
  }

  lemma ReadKeepsMask(e: Endpoint, result: ReadResult)
    requires MaskInv(e) && e.reader.Some? && PossibleRead(e.reader.value.sink, result)
    ensures var e' := ReadHalf(e, result).ep;
      MaskInv(e') && (e'.isOpen ==> e'.queue == e.queue) && (!e'.isOpen ==> e'.reader == None)
  {
  }

  lemma WriteKeepsMask(e: Endpoint, size: nat, errno: int)
    requires MaskInv(e) && PossibleWrite(e, size)
    ensures var e' := WriteHalf(e, size, errno).0;
      MaskInv(e') && e'.isOpen == e.isOpen && e'.reader == e.reader
  {
  }

  lemma HandleReadKeepsInv(m: Machine, result: ReadResult)
    requires Inv(m) && Enabled(m, HandleRead(result))
    ensures Inv(Next(m, HandleRead(result)))
  {
    var m' := Next(m, HandleRead(result));
    ReadKeepsMask(m.ep, result);
    ReadKeepsReader(m.ep, result, m.log);
    SenderInvFinishes(m.ep.queue, m.log);
    FinishedSideKept(m.log, m'.log);
    OtherSideKept(m.ep.queue, m.log, m'.log);
    hide SenderInv, ReaderInv, SenderFinished, ReadHalf, PossibleRead;
  }

  lemma HandleWriteKeepsInv(m: Machine, size: int, errno: int)
    requires Inv(m) && Enabled(m, HandleWrite(size, errno))
    ensures Inv(Next(m, HandleWrite(size, errno)))
  {
    if size < 0 {
      CloseKeepsInv(m, {}, m.told + WriteHalf(m.ep, size, errno).1);
    } else {
      WriteKeepsMask(m.ep, size, errno);
      WriteKeepsSender(m.ep, size, errno, m.log);
    }
  }

  lemma ReadCallKeepsInv(m: Machine, reader: Option<Reader>)
    requires Inv(m) && Enabled(m, ReadCall(reader))
    ensures Inv(Next(m, ReadCall(reader)))
  {
    InstallKeepsReader(m.ep.reader, reader, m.log);
    OtherSideKept(m.ep.queue, m.log, LogInstall(m.log, m.ep.reader, reader));
  }

  lemma WriteCallKeepsInv(m: Machine, send: Send)
    requires Inv(m) && Enabled(m, WriteCall(send))
    ensures Inv(Next(m, WriteCall(send)))
  {
    SubmitKeepsSender(m.ep.queue, m.log, send);
    SubmitKeepsReader(m.ep.reader, m.log, send);
    hide SenderInv, ReaderInv;
  }

  lemma StepKeepsInv(m: Machine, step: Step)
    requires Inv(m) && Enabled(m, step)
    ensures Inv(Next(m, step))
  {
    match step
    case ReadCall(reader) => ReadCallKeepsInv(m, reader);
    case WriteCall(send) => WriteCallKeepsInv(m, send);
    case HandleRead(result) => HandleReadKeepsInv(m, result);
    case HandleWrite(size, errno) => HandleWriteKeepsInv(m, size, errno);
    case Close => if m.ep.isOpen { CloseKeepsInv(m, m.pending, m.told); }
    case HandleError(errno) => if m.ep.isOpen { CloseKeepsInv(m, {}, m.told + CloseCalls(m.ep, errno)); }
    case Open => OpenKeepsInv(m);
    case _ =>
  }

  lemma OpenKeepsInv(m: Machine)
    requires Inv(m) && Enabled(m, Open)
    ensures Inv(Next(m, Open))
  {
    assert EMPTY_LOG.sent + Unsent([]) == Enqueued([]);
  }

  /** A run from `m`: each step enabled where it is taken. */
  ghost predicate Run(m: Machine, steps: seq<Step>)
    decreases |steps|
  {
    steps == [] || (Enabled(m, steps[0]) && Run(Next(m, steps[0]), steps[1..]))
  }

  ghost function After(m: Machine, steps: seq<Step>): Machine
    requires Run(m, steps)
    decreases |steps|
  {
    if steps == [] then m else After(Next(m, steps[0]), steps[1..])
  }

  lemma {:induction false} RunKeepsInv(m: Machine, steps: seq<Step>)
    requires Inv(m) && Run(m, steps)
    ensures Inv(After(m, steps))
    decreases |steps|
  {
    if steps != [] {
      StepKeepsInv(m, steps[0]);
      RunKeepsInv(Next(m, steps[0]), steps[1..]);
    }
  }

  lemma ReachableInv(steps: seq<Step>)
    requires Run(INITIAL, steps)
    ensures Inv(After(INITIAL, steps))
  {
    assert Concat(EMPTY_LOG.retired) == [];
    RunKeepsInv(INITIAL, steps);
  }
}
