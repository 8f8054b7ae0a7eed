/** Every callback a FileDescriptorIO or a Socket makes, over whole runs, against a reference
    written from the steps alone: what a user who sees the calls and the kernel's answers
    expects to be told, with which content and error. */
module Callbacks {
  import opened Basics
  import opened Stream

  // A queued source as the user sees it: what is left of it, and whom to tell.
  datatype Unsent = Unsent(rest: seq<byte>, callback: Option<Tag>)

  datatype User = User(open: bool, reader: Option<Reader>, queue: seq<Unsent>, onClose: Option<Tag>, told: seq<Call>)

  const NOBODY := User(false, None, [], None, [])

  // close(): sink and queue are released, nobody is told.
  function Dropped(u: User): User {
    if u.open then u.(open := false, reader := None, queue := []) else u
  }

  /** The close callback runs with the error, then everything is released. */
  function HungUp(u: User, error: int): User {
    Dropped(u.(told := if u.onClose.Some? then u.told + [OnClose(u.onClose.value, error)] else u.told))
  }

  /** The read callback runs with the sink's content, and the sink is let go. */
  function HandedBack(u: User, callback: Option<Tag>, content: seq<byte>): User {
    u.(reader := None, told := if callback.Some? then u.told + [OnRead(callback.value, content)] else u.told)
  }

  /** A read event.  Bytes complete a minimal sink, and a bounded one that reaches its maximum;
      at end of file the sink is handed back and error 0 reported; a sink without storage is
      error 12 (ENOMEM), any other failure its own. */
  function AfterRead(u: User, result: ReadResult): User
    requires u.reader.Some?
  {
    var Reader(SinkView(maximum, data, backed), callback) := u.reader.value;
    match result
    case IoctlFailed(errno) => HungUp(u, errno)
    case ReadFailed(_, filler, errno) => HungUp(u, if backed || data + filler != [] then errno else 12)
    case Got(_, filler, bytes) =>
      if bytes == [] then
        if backed || data + filler != [] then HungUp(HandedBack(u, callback, data + filler), 0) else HungUp(u, 12)
      else if maximum == 0 || |data + bytes| == maximum then HandedBack(u, callback, data + bytes)
      else u.(reader := Some(Reader(SinkView(maximum, data + bytes, true), callback)))
  }

  /** A write event takes `size` bytes of the front source; its callback runs when none is left. */
  function AfterWrite(u: User, size: int, errno: int): User
    requires u.queue != []
  {
    var front := u.queue[0];
    if size < 0 then HungUp(u, errno)
    else if size < |front.rest| then u.(queue := [Unsent(front.rest[size..], front.callback)] + u.queue[1..])
    else
      u.(queue := u.queue[1..],
         told := if front.callback.Some? then u.told + [OnWritten(front.callback.value)] else u.told)
  }

  function Handed(send: Send): Unsent
    requires send.Valid()
  {
    Unsent(send.data[send.progress..], send.callback)
  }

  ghost predicate SameQueue(queue: seq<Send>, seen: seq<Unsent>) {
    && |queue| == |seen|
    && forall i | 0 <= i < |queue| :: queue[i].Valid() && seen[i] == Handed(queue[i])
  }

  ghost predicate Agree(e: Endpoint, told: seq<Call>, u: User) {
    && u.open == e.isOpen && u.reader == e.reader && u.onClose == e.onClose && u.told == told
    && SameQueue(e.queue, u.queue)
  }

  lemma CloseAgrees(e: Endpoint, told: seq<Call>, u: User, error: int)
    requires Agree(e, told, u)
    ensures Agree(Closed(e), told, Dropped(u)) && Agree(Closed(e), told + CloseCalls(e, error), HungUp(u, error))
  {
    assert told + [] == told;
  }

  lemma ReadAgrees(e: Endpoint, told: seq<Call>, u: User, result: ReadResult)
    requires Agree(e, told, u) && e.isOpen && e.reader.Some? && PossibleRead(e.reader.value.sink, result)
    ensures Agree(ReadHalf(e, result).ep, told + ReadHalf(e, result).calls, AfterRead(u, result))
  {
    var Reader(sink, callback) := e.reader.value;
    var out := ReadHalf(e, result);
    hide SameQueue;
    assert told + [] == told;
    if result.Got? && result.bytes == [] && out.sink.backed {
      var first, second := ReadCalls(callback, out.sink), CloseCalls(e, 0);
      Associative(told, first, second);
      EmptyAgrees();
    } else {
      EmptyAgrees();
    }
  }

  lemma EmptyAgrees()
    ensures SameQueue([], [])
  {
  }

  lemma WriteAgrees(e: Endpoint, told: seq<Call>, u: User, size: int, errno: int)
    requires Agree(e, told, u) && e.isOpen && PossibleWrite(e, size)
    ensures u.queue != []
    ensures Agree(WriteHalf(e, size, errno).0, told + WriteHalf(e, size, errno).1, AfterWrite(u, size, errno))
  {
    var front := e.queue[0];
    assert u.queue[0] == Handed(front);
    assert told + [] == told;
    if size < 0 {
      CloseAgrees(e, told, u, errno);
    } else if front.progress + size < |front.data| {
      FrontAdvances(e.queue, u.queue, size);
    } else {
      FrontLeaves(e.queue, u.queue);
    }
    hide SameQueue;
  }

  lemma FrontAdvances(queue: seq<Send>, seen: seq<Unsent>, size: nat)
    requires SameQueue(queue, seen) && queue != [] && size <= |seen[0].rest|
    ensures var front := queue[0].(progress := queue[0].progress + size);
      SameQueue([front] + queue[1..], [Unsent(seen[0].rest[size..], seen[0].callback)] + seen[1..])
  {
    assert seen[0].rest[size..] == queue[0].data[queue[0].progress + size..];
  }

  lemma FrontLeaves(queue: seq<Send>, seen: seq<Unsent>)
    requires SameQueue(queue, seen) && queue != []
    ensures SameQueue(queue[1..], seen[1..])
  {
  }

  lemma EndGrows(queue: seq<Send>, seen: seq<Unsent>, send: Send)
    requires SameQueue(queue, seen) && send.Valid()
    ensures SameQueue(queue + [send], seen + [Handed(send)])
  {
  }
}

/** The callbacks of FileDescriptorIO. */
module StreamCallbacks {
  import opened Basics
  import opened Stream
  import opened StreamHistory
  import opened StreamRuns
  import opened StreamTheorems
  import opened Callbacks

  function Observe(u: User, step: Step): User {
    match step
    case Open => Dropped(u).(open := true)
    case SetCloseCallback(onClose) => u.(onClose := onClose)
    case ReadCall(reader) => u.(reader := reader)
    case WriteCall(send) => if send.Valid() then u.(queue := u.queue + [Handed(send)]) else u
    case Close => Dropped(u)
    case Deliver(_) => u
    case HandleRead(result) => if u.reader.Some? then AfterRead(u, result) else u
    case HandleWrite(size, errno) => if u.queue != [] then AfterWrite(u, size, errno) else u
    case HandleError(errno) => HungUp(u, errno)
  }

  function Observed(steps: seq<Step>): User {
    if steps == [] then NOBODY else Observe(Observed(steps[..|steps| - 1]), steps[|steps| - 1])
  }

  lemma StepAgrees(m: Machine, u: User, step: Step)
    requires Inv(m) && Agree(m.ep, m.told, u) && Enabled(m, step)
    ensures Agree(Next(m, step).ep, Next(m, step).told, Observe(u, step))
  {
    hide SenderInv, SenderFinished, ReaderInv, LogInstall, LogSubmit, LogRead, LogWrite, LogClose;
    match step
    case HandleRead(result) => HandleReadAgrees(m, u, result);
    case HandleWrite(size, errno) => HandleWriteAgrees(m, u, size, errno);
    case HandleError(errno) => CloseAgrees(m.ep, m.told, u, errno);
    case WriteCall(send) => EndGrows(m.ep.queue, u.queue, send);
    case Close => CloseAgrees(m.ep, m.told, u, 0);
    case Open => CloseAgrees(m.ep, m.told, u, 0);
    case _ =>
  }

  lemma HandleReadAgrees(m: Machine, u: User, result: ReadResult)
    requires Inv(m) && Agree(m.ep, m.told, u) && Enabled(m, HandleRead(result))
    ensures var m' := Next(m, HandleRead(result)); Agree(m'.ep, m'.told, Observe(u, HandleRead(result)))
  {
    ReadAgrees(m.ep, m.told, u, result);
    hide Agree, ReadHalf, AfterRead, Inv;
  }

  lemma HandleWriteAgrees(m: Machine, u: User, size: int, errno: int)
    requires Inv(m) && Agree(m.ep, m.told, u) && Enabled(m, HandleWrite(size, errno))
    ensures var m' := Next(m, HandleWrite(size, errno)); Agree(m'.ep, m'.told, Observe(u, HandleWrite(size, errno)))
  {
    WriteAgrees(m.ep, m.told, u, size, errno);
    hide Agree, WriteHalf, AfterWrite, Inv;
  }

  /** In every reachable state the callbacks made, all of them and in order, are those the user
      expects: OnRead for exactly the sinks that completed or met end of file, with their
      final content; OnWritten for exactly the sources sent to the end; OnClose for exactly the
      failures and ends, with their error.  What is open, installed and queued is as expected too. */
  lemma {:induction false} CallbacksExact(steps: seq<Step>)
    requires Run(INITIAL, steps)
    ensures Agree(After(INITIAL, steps).ep, After(INITIAL, steps).told, Observed(steps))
    decreases |steps|
  {
    if steps != [] {
      var front, last := steps[..|steps| - 1], steps[|steps| - 1];
      RunSnoc(INITIAL, steps);
      ReachableInv(front);
      CallbacksExact(front);
      StepAgrees(After(INITIAL, front), Observed(front), last);
      hide Run, After, Inv, Next, Enabled, Agree, Observe;
    }
  }
}

/** The callbacks of Socket. */
module SocketCallbacks {
  import opened Basics
  import opened Stream
  import opened StreamHistory
  import opened SocketStream
  import opened SocketRuns
  import opened Callbacks

  function Observe(u: User, step: Step): User {
    match step
    case Connect(how) => Dropped(u).(open := !how.Failed?)
    case OpenHandle => Dropped(u).(open := true)
    case SetCloseCallback(onClose) => u.(onClose := onClose)
    case Receive(reader) => u.(reader := reader)
    case SendCall(send) => if send.Valid() then u.(queue := u.queue + [Handed(send)]) else u
    case Close => Dropped(u)
    case ConnectError(error) => HungUp(u, error)
    case Reregister => u
    case RaiseFlag => u
    case Deliver(_) => u
    case HandleRead(result) => if u.reader.Some? then AfterRead(u, result) else u
    case HandleWrite(size, errno) => if u.queue != [] then AfterWrite(u, size, errno) else u
    case HandleError(error) => HungUp(u, error)
  }

  function Observed(steps: seq<Step>): User {
    if steps == [] then NOBODY else Observe(Observed(steps[..|steps| - 1]), steps[|steps| - 1])
  }

  lemma StepAgrees(m: Machine, u: User, step: Step)
    requires PhaseInv(m) && Agree(m.s.ep, m.told, u) && Enabled(m, step)
    ensures Agree(Next(m, step).s.ep, Next(m, step).told, Observe(u, step))
  {
    match step
    case HandleRead(result) => HandleReadAgrees(m, u, result);
    case HandleWrite(size, errno) => HandleWriteAgrees(m, u, size, errno);
    case _ => OtherAgrees(m, u, step);
  }

  lemma OtherAgrees(m: Machine, u: User, step: Step)
    requires PhaseInv(m) && Agree(m.s.ep, m.told, u) && Enabled(m, step) && !step.HandleRead? && !step.HandleWrite?
    ensures Agree(Next(m, step).s.ep, Next(m, step).told, Observe(u, step))
  {
    hide LogInstall, LogSubmit, LogRead, LogWrite, LogClose, SockReadHalf, SockWriteHalf, PossibleRead, PossibleWrite;
    CloseAgrees(m.s.ep, m.told, u, if step.HandleError? || step.ConnectError? then step.error else 0);
    if step.SendCall? {
      EndGrows(m.s.ep.queue, u.queue, step.send);
    }
    hide SameQueue;
  }

  lemma HandleReadAgrees(m: Machine, u: User, result: ReadResult)
    requires PhaseInv(m) && Agree(m.s.ep, m.told, u) && Enabled(m, HandleRead(result))
    ensures var m' := Next(m, HandleRead(result)); Agree(m'.s.ep, m'.told, Observe(u, HandleRead(result)))
  {
    ReadAgrees(m.s.ep, m.told, u, result);
    hide Agree, ReadHalf, AfterRead, LogRead;
  }

  lemma HandleWriteAgrees(m: Machine, u: User, size: int, errno: int)
    requires PhaseInv(m) && Agree(m.s.ep, m.told, u) && Enabled(m, HandleWrite(size, errno))
    ensures var m' := Next(m, HandleWrite(size, errno)); Agree(m'.s.ep, m'.told, Observe(u, HandleWrite(size, errno)))
  {
    WriteAgrees(m.s.ep, m.told, u, size, errno);
    hide Agree, WriteHalf, AfterWrite, LogWrite, LogClose;
  }

  /** In every reachable state the callbacks made, all of them and in order, are those the user
      expects, as for FileDescriptorIO; also for sources and sinks handed over while down or
      connecting, and for a connection that fails. */
  lemma {:induction false} CallbacksExact(steps: seq<Step>)
    requires Run(INITIAL, steps)
    ensures Agree(After(INITIAL, steps).s.ep, After(INITIAL, steps).told, Observed(steps))
    decreases |steps|
  {
    if steps != [] {
      var front, last := steps[..|steps| - 1], steps[|steps| - 1];
      RunSnoc(INITIAL, steps);
      ReachableInv(front);
      CallbacksExact(front);
      StepAgrees(After(INITIAL, front), Observed(front), last);
      hide Run, After, Inv, Next, Enabled, Agree, Observe;
    }
  }
}
