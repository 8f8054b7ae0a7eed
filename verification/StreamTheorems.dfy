/** What the invariant of StreamRuns promises a user of FileDescriptorIO, over all runs. */
module StreamTheorems {
  import opened Basics
  import opened Stream
  import opened StreamHistory
  import opened StreamRuns

  // ---- The history's list of sources is the user's list of write() calls ----

  /** The sources passed to write() since the last open(). */
  ghost function WriteCalls(steps: seq<Step>): seq<Send> {
    if steps == [] then []
    else
      var before := WriteCalls(steps[..|steps| - 1]);
      match steps[|steps| - 1]
      case Open => []
      case WriteCall(send) => before + [send]
      case _ => before
  }

  lemma {:induction false} RunSnoc(m: Machine, steps: seq<Step>)
    requires Run(m, steps) && steps != []
    ensures var front, last := steps[..|steps| - 1], steps[|steps| - 1];
      Run(m, front) && Enabled(After(m, front), last) && After(m, steps) == Next(After(m, front), last)
    decreases |steps|
  {
    if |steps| > 1 {
      RunSnoc(Next(m, steps[0]), steps[1..]);
      assert steps[1..][..|steps| - 2] == steps[..|steps| - 1][1..];
    }
  }

  lemma {:induction false} WrittenIsWriteCalls(steps: seq<Step>)
    requires Run(INITIAL, steps)
    ensures After(INITIAL, steps).log.written == WriteCalls(steps)
    decreases |steps|
  {
    if steps != [] {
      RunSnoc(INITIAL, steps);
      WrittenIsWriteCalls(steps[..|steps| - 1]);
    }
  }

  // ---- Sending ----

  /** In every reachable open state the bytes the kernel accepted followed by the unsent
      bytes of the queue are the sources in write() order; the popped ones are exactly the
      first so many, all of whose bytes were accepted, and exactly their callbacks ran. */
  lemma SenderConservation(steps: seq<Step>)
    requires Run(INITIAL, steps) && After(INITIAL, steps).ep.isOpen
    ensures var m, calls := After(INITIAL, steps), WriteCalls(steps);
      && AllValid(calls) && AllValid(m.ep.queue)
      && m.log.sent + Unsent(m.ep.queue) == Enqueued(calls)
      && |calls| == m.log.popped + |m.ep.queue|
      && Enqueued(calls[..m.log.popped]) <= m.log.sent
      && m.log.fired == Tags(calls[..m.log.popped])
      && (forall i | 0 < i < |m.ep.queue| :: m.ep.queue[i] == calls[m.log.popped + i])
  {
    ReachableInv(steps);
    WrittenIsWriteCalls(steps);
    var m := After(INITIAL, steps);
    SenderInvMeans(m.ep.queue, m.log);
    hide Run, After, WriteCalls, Enqueued, Unsent, Tags, SenderInv, ReaderInv;
  }

  /** Open or closed, the bytes accepted are a prefix of the sources in write() order, and
      exactly the callbacks of the popped sources, wholly accepted, ran: closing loses the tail
      but sends nothing out of order and fires nothing it should not. */
  lemma SentIsPrefix(steps: seq<Step>)
    requires Run(INITIAL, steps)
    ensures var log, calls := After(INITIAL, steps).log, WriteCalls(steps);
      && AllValid(calls) && log.popped <= |calls| && AllValid(calls[..log.popped])
      && Enqueued(calls[..log.popped]) <= log.sent <= Enqueued(calls)
      && log.fired == Tags(calls[..log.popped])
  {
    ReachableInv(steps);
    WrittenIsWriteCalls(steps);
    var m := After(INITIAL, steps);
    if m.ep.isOpen {
      SenderInvFinishes(m.ep.queue, m.log);
    }
    hide Run, After, WriteCalls, Enqueued, Tags, SenderInv, ReaderInv;
  }

  ghost function Work(e: Endpoint): nat
    requires AllValid(e.queue)
  {
    |Unsent(e.queue)| + |e.queue|
  }

  /** A write event strictly reduces unsent bytes plus queue length exactly when the kernel
      accepts a byte or the front source had none left; otherwise it changes nothing. */
  lemma WriteEventProgress(e: Endpoint, size: nat, errno: int)
    requires AllValid(e.queue) && PossibleWrite(e, size)
    ensures var e' := WriteHalf(e, size, errno).0;
      && AllValid(e'.queue)
      && (Work(e') < Work(e) <==> size > 0 || e.queue[0].Payload() == [])
      && (Work(e') >= Work(e) ==> e' == e)
  {
    var front, e' := e.queue[0], WriteHalf(e, size, errno).0;
    if size < |front.Payload()| {
      assert e'.queue == [front.(progress := front.progress + size)] + e.queue[1..];
      assert e'.queue[1..] == e.queue[1..];
      if size == 0 {
        assert e'.queue == e.queue;
      }
    } else {
      assert e'.queue == e.queue[1..];
    }
  }

  // ---- No lost wakeup ----

  /** In every reachable open state, under every interleaving: Write is in the mask exactly
      when a source is queued, Read exactly when a sink is installed, nothing else is in it,
      and the loop watches for exactly the mask.  A closed one is not registered. */
  lemma MaskFollowsWork(steps: seq<Step>)
    requires Run(INITIAL, steps)
    ensures var ep := After(INITIAL, steps).ep;
      if ep.isOpen then
        && (Write in ep.events <==> ep.queue != []) && (Read in ep.events <==> ep.reader.Some?)
        && ep.events <= {Read, Write} && ep.registered == Some(ep.events)
      else ep.registered == None && ep.queue == [] && ep.reader == None
  {
    ReachableInv(steps);
  }

  // Write events, each taking all the front source has left.
  ghost function DrainSteps(queue: seq<Send>): seq<Step>
    requires AllValid(queue)
  {
    if queue == [] then []
    else [Deliver({Write}), HandleWrite(|queue[0].Payload()|, 0)] + DrainSteps(queue[1..])
  }

  lemma WriteIsWatched(m: Machine)
    requires Inv(m) && m.ep.isOpen && m.pending == {} && m.ep.queue != []
    ensures Enabled(m, Deliver({Write})) && Next(m, Deliver({Write})) == m.(pending := {Write})
    ensures m.ep.queue[0].Valid()
  {
    hide ReaderInv, Tags, Conserved;
  }

  // One write event that takes all of the front source.
  lemma FrontCanLeave(m: Machine)
    requires Inv(m) && m.ep.isOpen && m.ep.queue != [] && m.ep.queue[0].Valid() && m.pending == {Write}
    ensures var take := HandleWrite(|m.ep.queue[0].Payload()|, 0);
      && Enabled(m, take) && Inv(Next(m, take))
      && var m' := Next(m, take);
         && m'.ep.isOpen && m'.pending == {} && m'.ep.queue == m.ep.queue[1..]
         && m'.ep.reader == m.ep.reader && m'.log.written == m.log.written
  {
    var size := |m.ep.queue[0].Payload()|;
    hide StreamRuns.Inv, WrittenTags, WriteHalf, LogWrite;
    WholeFrontLeaves(m.ep, m.log);
    HandleWriteKeepsInv(m, size, 0);
  }

  lemma WholeFrontLeaves(e: Endpoint, log: Log)
    requires e.isOpen && e.queue != [] && e.queue[0].Valid()
    ensures var size := |e.queue[0].Payload()|;
      PossibleWrite(e, size) && LogWrite(log, e, size).written == log.written
    ensures var e' := WriteHalf(e, |e.queue[0].Payload()|, 0).0;
      e'.isOpen && e'.queue == e.queue[1..] && e'.reader == e.reader
  {
    hide WrittenTags;
  }

  lemma TwoSteps(m: Machine, first: Step, second: Step, rest: seq<Step>)
    requires Enabled(m, first) && Enabled(Next(m, first), second) && Run(Next(Next(m, first), second), rest)
    ensures var steps := [first, second] + rest;
      Run(m, steps) && After(m, steps) == After(Next(Next(m, first), second), rest)
  {
    hide Enabled, Next;
    var steps := [first, second] + rest;
    assert steps[1..] == [second] + rest && steps[1..][1..] == rest;
    assert Run(Next(m, first), steps[1..]);
  }

  /** No queued source is stranded: from every reachable open state the loop can deliver
      write events, and nothing but write events, until the queue is empty, everything ever
      enqueued was accepted and the loop no longer watches for writability. */
  lemma {:induction false} QueueCanDrain(m: Machine)
    requires Inv(m) && m.ep.isOpen && m.pending == {}
    ensures AllValid(m.ep.queue) && Run(m, DrainSteps(m.ep.queue))
    ensures var m' := After(m, DrainSteps(m.ep.queue));
      && m'.ep.isOpen && m'.ep.queue == [] && m'.ep.reader == m.ep.reader
      && m'.log.sent == Enqueued(m.log.written)
      && m'.ep.registered.Some? && Write !in m'.ep.registered.value
    decreases |m.ep.queue|
  {
    if m.ep.queue != [] {
      WriteIsWatched(m);
      StepKeepsInv(m, Deliver({Write}));
      FrontCanLeave(m.(pending := {Write}));
      hide Enabled, Next, Inv;
      var first, second := Deliver({Write}), HandleWrite(|m.ep.queue[0].Payload()|, 0);
      var m2 := Next(Next(m, first), second);
      QueueCanDrain(m2);
      TwoSteps(m, first, second, DrainSteps(m2.ep.queue));
    } else {
      assert m.log.sent + [] == m.log.sent;
    }
  }

  // ---- The handler's two assertions ----

  /** Of the calls since the last delivery, whether the last one to set or drop the sink
      installed one; if there was none, the sink whose interest was delivered is there. */
  ghost predicate SinkSinceDelivery(steps: seq<Step>) {
    steps != [] &&
    match steps[|steps| - 1]
    case Deliver(_) => true
    case ReadCall(reader) => reader.Some?
    case Open => false
    case Close => false
    case _ => SinkSinceDelivery(steps[..|steps| - 1])
  }

  /** Since the last delivery there was no open() or close(), or a write() came after it. */
  ghost predicate SourceSinceDelivery(steps: seq<Step>) {
    steps != [] &&
    match steps[|steps| - 1]
    case Deliver(_) => true
    case WriteCall(_) => true
    case Open => false
    case Close => false
    case _ => SourceSinceDelivery(steps[..|steps| - 1])
  }

  // One step, while the handler has yet to treat a read event.
  lemma SinkStep(m: Machine, step: Step)
    requires Inv(m) && Enabled(m, step) && Read in Next(m, step).pending
    ensures step.Deliver? || Read in m.pending
    ensures ReadAssertion(Next(m, step)) <==>
      match step
      case Deliver(_) => true
      case ReadCall(reader) => reader.Some?
      case Open => false
      case Close => false
      case _ => ReadAssertion(m)
  {
    hide SenderInv, ReaderInv, ReadHalf, LogInstall, LogSubmit, LogRead, LogWrite, PossibleRead;
  }

  lemma SourceStep(m: Machine, step: Step)
    requires Inv(m) && Enabled(m, step) && Write in Next(m, step).pending
    ensures step.Deliver? || Write in m.pending
    ensures WriteAssertion(Next(m, step)) <==>
      match step
      case Deliver(_) => true
      case WriteCall(_) => true
      case Open => false
      case Close => false
      case _ => WriteAssertion(m)
  {
    if step.HandleRead? {
      ReadKeepsMask(m.ep, step.result);
    }
    hide SenderInv, ReaderInv, ReadHalf, WriteHalf, LogInstall, LogSubmit, LogRead, LogWrite, PossibleRead;
  }

  /** The assertion on the sink holds when the handler treats a read event if and only if the
      last call since the delivery to set or drop the sink, if any, installed one: neither
      withdrawn by read(nullptr) nor released by a close() without a read() after it. */
  lemma {:induction false} ReadAssertionExact(steps: seq<Step>)
    requires Run(INITIAL, steps) && Read in After(INITIAL, steps).pending
    ensures ReadAssertion(After(INITIAL, steps)) <==> SinkSinceDelivery(steps)
    decreases |steps|
  {
    if steps != [] {
      var front, last := steps[..|steps| - 1], steps[|steps| - 1];
      RunSnoc(INITIAL, steps);
      ReachableInv(front);
      SinkStep(After(INITIAL, front), last);
      hide Run, After, Inv, Next, Enabled;
      if Read in After(INITIAL, front).pending {
        ReadAssertionExact(front);
      }
    }
  }

  /** The assertion on the queue holds when the handler treats a write event if and only if
      no open() or close() came since the delivery, or a write() after it. */
  lemma {:induction false} WriteAssertionExact(steps: seq<Step>)
    requires Run(INITIAL, steps) && Write in After(INITIAL, steps).pending
    ensures WriteAssertion(After(INITIAL, steps)) <==> SourceSinceDelivery(steps)
    decreases |steps|
  {
    if steps != [] {
      var front, last := steps[..|steps| - 1], steps[|steps| - 1];
      RunSnoc(INITIAL, steps);
      ReachableInv(front);
      SourceStep(After(INITIAL, front), last);
      hide Run, After, Inv, Next, Enabled;
      if Write in After(INITIAL, front).pending {
        WriteAssertionExact(front);
      }
    }
  }

  // Four steps, the last in the window between delivery and handler.
  lemma FourSteps(a: Step, b: Step, c: Step, d: Step)
    requires Enabled(INITIAL, a) && Enabled(Next(INITIAL, a), b) && Enabled(Next(Next(INITIAL, a), b), c)
    requires Enabled(Next(Next(Next(INITIAL, a), b), c), d)
    ensures Run(INITIAL, [a, b, c, d])
    ensures After(INITIAL, [a, b, c, d]) == Next(Next(Next(Next(INITIAL, a), b), c), d)
  {
    hide Enabled, Next;
    var m2 := Next(Next(INITIAL, a), b);
    assert Run(Next(Next(m2, c), d), []);
    TwoSteps(m2, c, d, []);
    assert [c, d] + [] == [c, d] && [a, b] + [c, d] == [a, b, c, d];
    TwoSteps(INITIAL, a, b, [c, d]);
  }

  /** The first can fail: another thread withdraws the sink in that window. */
  lemma ReadAssertionCanFail()
    ensures exists steps ::
              && Run(INITIAL, steps)
              && Read in After(INITIAL, steps).pending && !ReadAssertion(After(INITIAL, steps))
  {
    var read := ReadCall(Some(Reader(SinkView(4, [], true), None)));
    var m1 := Next(INITIAL, Open);
    assert m1.ep.events + {Interest.Read} == {Read};
    assert Next(m1, read).ep.registered == Some({Read});
    FourSteps(Open, read, Deliver({Read}), ReadCall(None));
  }

  /** So can the second: another thread closes in that window. */
  lemma WriteAssertionCanFail()
    ensures exists steps ::
              && Run(INITIAL, steps)
              && Write in After(INITIAL, steps).pending && !WriteAssertion(After(INITIAL, steps))
  {
    var write := WriteCall(Send([0], 0, None));
    var m1 := Next(INITIAL, Open);
    assert m1.ep.events + {Interest.Write} == {Write};
    assert Next(m1, write).ep.registered == Some({Write});
    FourSteps(Open, write, Deliver({Write}), Close);
  }

  // ---- Receiving ----

  /** What read() returns with `arrived` in the receive buffer: as much as there is room for. */
  ghost function KernelRead(sink: SinkView, arrived: seq<byte>): ReadResult
    requires sink.WithinMaximum()
  {
    var room := sink.Headroom(|arrived|);
    Got(|arrived|, seq(room, _ => 0), arrived[..Min(room, |arrived|)])
  }

  predicate Completes(sink: SinkView, arrived: seq<byte>) {
    sink.maximum == 0 || |sink.data| + |arrived| >= sink.maximum
  }

  /** One read event takes everything that has arrived, or what is missing to the maximum, and
      leaves nothing of it unread in between. */
  lemma ReadTakesAllThatFits(e: Endpoint, arrived: seq<byte>)
    requires e.isOpen && e.reader.Some? && AcceptableSink(e.reader.value.sink) && arrived != []
    ensures var sink, r := e.reader.value.sink, KernelRead(e.reader.value.sink, arrived);
      && PossibleRead(sink, r) && r.bytes != []
      && var out := ReadHalf(e, r);
         && out.ep.isOpen && (out.ep.reader.None? <==> Completes(sink, arrived))
         && out.sink.data == (if sink.maximum != 0 && |sink.data| + |arrived| > sink.maximum
                              then sink.data + arrived[..sink.maximum - |sink.data|] else sink.data + arrived)
         && (out.ep.reader.Some? ==>
               && out.ep.reader.value.sink == SinkView(sink.maximum, sink.data + arrived, true)
               && out.ep.reader.value.callback == e.reader.value.callback)
  {
    assert arrived[..|arrived|] == arrived;
  }

  // Read events, one for each batch of bytes, until the sink is complete.
  ghost function FillSteps(sink: SinkView, batches: seq<seq<byte>>): seq<Step>
    requires AcceptableSink(sink)
    decreases |batches|
  {
    if batches == [] then []
    else
      [Deliver({Read}), HandleRead(KernelRead(sink, batches[0]))] +
      if Completes(sink, batches[0]) then []
      else FillSteps(SinkView(sink.maximum, sink.data + batches[0], true), batches[1..])
  }

  // What a sink holds once complete.
  ghost function Filled(sink: SinkView, first: seq<byte>, all: seq<byte>): seq<byte> {
    if sink.maximum == 0 then sink.data + first
    else if |all| >= sink.maximum then all[..sink.maximum] else all
  }

  // One read event, delivered and handled.
  lemma ReadEvent(m: Machine, arrived: seq<byte>)
    requires Inv(m) && m.ep.isOpen && m.ep.reader.Some? && m.pending == {} && arrived != []
    ensures AcceptableSink(m.ep.reader.value.sink)
    ensures var Reader(sink, callback) := m.ep.reader.value;
      var handle := HandleRead(KernelRead(sink, arrived));
      && Enabled(m, Deliver({Read})) && Enabled(Next(m, Deliver({Read})), handle)
      && var m' := Next(Next(m, Deliver({Read})), handle);
         && Inv(m') && m'.pending == {} && m'.ep.isOpen
         && if Completes(sink, arrived) then
              && m'.ep.reader.None?
              && m'.told == m.told + if callback.Some?
                                     then [OnRead(callback.value, Filled(sink, arrived, sink.data + arrived))] else []
            else
              && m'.ep.reader == Some(Reader(SinkView(sink.maximum, sink.data + arrived, true), callback))
              && m'.told == m.told
  {
    ReadIsWatched(m);
    StepKeepsInv(m, Deliver({Read}));
    ReadOnce(m.(pending := {Read}), arrived);
    HandleReadKeepsInv(m.(pending := {Read}), KernelRead(m.ep.reader.value.sink, arrived));
    hide Inv, Enabled, Next, KernelRead, AcceptableSink, Filled, Completes;
  }

  lemma ReadIsWatched(m: Machine)
    requires Inv(m) && m.ep.isOpen && m.pending == {} && m.ep.reader.Some?
    ensures Enabled(m, Deliver({Read})) && Next(m, Deliver({Read})) == m.(pending := {Read})
    ensures AcceptableSink(m.ep.reader.value.sink)
  {
    hide SenderInv, Tags, Conserved;
  }

  // The handler's part of it.
  lemma ReadOnce(m: Machine, arrived: seq<byte>)
    requires m.ep.isOpen && m.ep.reader.Some? && AcceptableSink(m.ep.reader.value.sink) && arrived != []
    requires m.pending == {Read}
    ensures var Reader(sink, callback) := m.ep.reader.value;
      var handle := HandleRead(KernelRead(sink, arrived));
      && Enabled(m, handle)
      && var m' := Next(m, handle);
         && m'.pending == {} && m'.ep.isOpen
         && if Completes(sink, arrived) then
              && m'.ep.reader.None?
              && m'.told == m.told + if callback.Some?
                                     then [OnRead(callback.value, Filled(sink, arrived, sink.data + arrived))] else []
            else
              && m'.ep.reader == Some(Reader(SinkView(sink.maximum, sink.data + arrived, true), callback))
              && m'.told == m.told
  {
    var sink, result := m.ep.reader.value.sink, KernelRead(m.ep.reader.value.sink, arrived);
    ReadTakesAllThatFits(m.ep, arrived);
    ReadCompletesExactly(m.ep, result.available, result.filler, result.bytes);
    hide ReadHalf, LogRead, KernelRead, PossibleRead, AcceptableSink;
    assert m.told + [] == m.told;
    if Completes(sink, arrived) && sink.maximum != 0 {
      MaximumOfWhole(sink, arrived, []);
      assert arrived + [] == arrived;
    }
  }

  /** No sink starves: from every reachable open state with a sink installed, whatever non-empty
      batches of bytes arrive, read events and nothing but read events complete it, once there
      is a byte for a minimal sink or enough for a bounded one; it then holds the first batch,
      or exactly its maximum, and its callback ran with that.  Until then it holds all that
      arrived. */
  lemma {:induction false} SinkFills(m: Machine, batches: seq<seq<byte>>)
    requires Inv(m) && m.ep.isOpen && m.ep.reader.Some? && m.pending == {}
    requires forall b | b in batches :: b != []
    ensures AcceptableSink(m.ep.reader.value.sink) && Run(m, FillSteps(m.ep.reader.value.sink, batches))
    ensures var Reader(sink, callback) := m.ep.reader.value;
      var m', all := After(m, FillSteps(sink, batches)), sink.data + Concat(batches);
      && m'.ep.isOpen && m'.pending == {}
      && if batches != [] && (sink.maximum == 0 || |all| >= sink.maximum) then
           && m'.ep.reader.None?
           && m'.told == m.told + if callback.Some? then [OnRead(callback.value, Filled(sink, batches[0], all))] else []
         else
           && m'.ep.reader.Some? && m'.ep.reader.value.callback == callback && m'.told == m.told
           && m'.ep.reader.value.sink.data == all && m'.ep.reader.value.sink.maximum == sink.maximum
    decreases |batches|
  {
    var Reader(sink, callback) := m.ep.reader.value;
    if batches == [] {
      assert AcceptableSink(sink);
      assert Concat<byte>([]) == [] && sink.data + [] == sink.data;
    } else {
      var first, rest := batches[0], batches[1..];
      assert first in batches && forall b | b in rest :: b in batches;
      ReadEvent(m, first);
      var handle := HandleRead(KernelRead(sink, first));
      var m2 := Next(Next(m, Deliver({Read})), handle);
      ConcatFirst(batches);
      Associative(sink.data, first, Concat(rest));
      hide Inv, Enabled, Next, KernelRead, Concat, AcceptableSink;
      if Completes(sink, first) {
        OneMore(m, handle, []);
        FilledByFirst(sink, first, Concat(rest));
      } else {
        SinkFills(m2, rest);
        OneMore(m, handle, FillSteps(m2.ep.reader.value.sink, rest));
        FilledLater(m2.ep.reader.value.sink, rest);
      }
    }
  }

  lemma OneMore(m: Machine, handle: Step, rest: seq<Step>)
    requires Enabled(m, Deliver({Read})) && Enabled(Next(m, Deliver({Read})), handle)
    requires Run(Next(Next(m, Deliver({Read})), handle), rest)
    ensures Run(m, [Deliver({Read}), handle] + rest)
    ensures After(m, [Deliver({Read}), handle] + rest) == After(Next(Next(m, Deliver({Read})), handle), rest)
  {
    hide Enabled, Next;
    TwoSteps(m, Deliver({Read}), handle, rest);
  }

  // The batches after the one that completes a sink change nothing.
  lemma FilledByFirst(sink: SinkView, first: seq<byte>, later: seq<byte>)
    requires AcceptableSink(sink) && Completes(sink, first)
    ensures Filled(sink, first, sink.data + first) == Filled(sink, first, sink.data + (first + later))
  {
    if sink.maximum != 0 {
      MaximumOfWhole(sink, first, later);
      MaximumOfWhole(sink, first, []);
      assert first + [] == first;
    }
  }

  // A bounded sink not complete yet: which batch comes next is of no account.
  lemma FilledLater(sink: SinkView, rest: seq<seq<byte>>)
    requires sink.maximum != 0 && |sink.data| < sink.maximum
    ensures rest == [] ==> |sink.data + Concat(rest)| < sink.maximum
  {
  }

  lemma {:induction false} ConcatFirst(batches: seq<seq<byte>>)
    requires batches != []
    ensures Concat(batches) == batches[0] + Concat(batches[1..])
    decreases |batches|
  {
    var n := |batches| - 1;
    if n == 0 {
      assert Concat(batches[..0]) == [] && batches[0] + [] == [] + batches[0];
    } else {
      ConcatFirst(batches[..n]);
      assert batches[..n][1..] == batches[1..][..n - 1];
      Associative(batches[0], Concat(batches[1..][..n - 1]), batches[n]);
    }
  }

  lemma MaximumOfWhole(sink: SinkView, first: seq<byte>, later: seq<byte>)
    requires AcceptableSink(sink) && sink.maximum != 0 && |sink.data| + |first| >= sink.maximum
    ensures (sink.data + (first + later))[..sink.maximum] == sink.data + first[..sink.maximum - |sink.data|]
  {
  }

  /** The bytes the reads since the last open() delivered. */
  ghost function ReadBytes(steps: seq<Step>): seq<byte> {
    if steps == [] then []
    else
      var before, last := ReadBytes(steps[..|steps| - 1]), steps[|steps| - 1];
      if last.Open? then [] else if last.HandleRead? && last.result.Got? then before + last.result.bytes else before
  }

  lemma ReadStep(m: Machine, step: Step)
    requires Inv(m) && Enabled(m, step)
    ensures Next(m, step).log.received ==
      if step.Open? then []
      else if step.HandleRead? && step.result.Got? then m.log.received + step.result.bytes else m.log.received
  {
    assert m.log.received + [] == m.log.received;
    if step.HandleRead? {
      ReadExtends(m.ep, step.result);
    }
    hide SenderInv, ReaderInv, WriteHalf, WrittenTags, PossibleRead;
  }

  lemma {:induction false} ReceivedIsReadBytes(steps: seq<Step>)
    requires Run(INITIAL, steps)
    ensures After(INITIAL, steps).log.received == ReadBytes(steps)
    decreases |steps|
  {
    if steps != [] {
      var front, last := steps[..|steps| - 1], steps[|steps| - 1];
      RunSnoc(INITIAL, steps);
      ReachableInv(front);
      ReceivedIsReadBytes(front);
      ReadStep(After(INITIAL, front), last);
      hide Run, After, Inv, Next, Enabled;
    }
  }

  /** In every reachable state, open or closed, what the sinks gained while installed, in
      order, is exactly what the reads delivered, followed after a close by end of file or
      error by the unread extension of the last sink; what a sink held before is still its
      beginning; a bounded sink is installed only while below its maximum, a minimal one only
      until it gains a byte; and every bounded sink reported complete holds its maximum. */
  lemma ReaderConservation(steps: seq<Step>)
    requires Run(INITIAL, steps)
    ensures var Machine(ep, _, log, _) := After(INITIAL, steps);
      && Concat(log.retired) + Gained(ep.reader, log) == ReadBytes(steps) + log.junk
      && (ep.isOpen ==> log.junk == [])
      && (ep.reader.Some? ==>
            && ep.reader.value.sink.data == log.base + Gained(ep.reader, log)
            && AcceptableSink(ep.reader.value.sink)
            && (ep.reader.value.sink.maximum == MINIMAL_CAPACITY ==> Gained(ep.reader, log) == []))
      && (forall c | c in log.completed :: c.maximum == MINIMAL_CAPACITY || |c.data| == c.maximum)
  {
    ReachableInv(steps);
    ReceivedIsReadBytes(steps);
    hide Run, After, ReadBytes, SenderInv, SenderFinished, Concat;
  }

  /** A non-empty read completes a minimal sink always and a bounded one exactly when it
      reaches the maximum; the bytes read are appended and the over-extension is gone. */
  lemma ReadCompletesExactly(e: Endpoint, available: nat, filler: seq<byte>, bytes: seq<byte>)
    requires e.isOpen && e.reader.Some? && bytes != []
    requires PossibleRead(e.reader.value.sink, Got(available, filler, bytes))
    ensures var out, sink := ReadHalf(e, Got(available, filler, bytes)), e.reader.value.sink;
      && out.ep.isOpen && out.ep.queue == e.queue
      && out.sink.data == sink.data + bytes
      && (out.ep.reader.None? <==> sink.maximum == MINIMAL_CAPACITY || |sink.data| + |bytes| == sink.maximum)
      && (sink.maximum != MINIMAL_CAPACITY ==> |out.sink.data| <= sink.maximum)
      && out.calls == if out.ep.reader.None? && e.reader.value.callback.Some?
                      then [OnRead(e.reader.value.callback.value, sink.data + bytes)] else []
  {
    ReadExtends(e, Got(available, filler, bytes));
  }

  /** At end of file the sink is handed back as it was if and only if it had no headroom:
      a bounded sink with nothing available is intact, a minimal sink that already held
      bytes comes back extended by as many bytes it never read.  An empty minimal sink
      whose container was never allocated is not handed back: the error is ENOMEM. */
  lemma EndOfFileExact(e: Endpoint, available: nat, filler: seq<byte>)
    requires e.isOpen && e.reader.Some?
    requires PossibleRead(e.reader.value.sink, Got(available, filler, []))
    ensures var out, sink := ReadHalf(e, Got(available, filler, [])), e.reader.value.sink;
      && !out.ep.isOpen && out.sink.data == sink.data + filler
      && (out.sink.data == sink.data <==> sink.Headroom(available) == 0)
      && (available == 0 ==> (out.sink.data == sink.data <==> sink.maximum != MINIMAL_CAPACITY || sink.data == []))
      && var backed, callback := sink.backed || filler != [] || sink.data != [], e.reader.value.callback;
         out.calls == (if backed && callback.Some? then [OnRead(callback.value, sink.data + filler)] else [])
                    + (if e.onClose.Some? then [OnClose(e.onClose.value, if backed then 0 else 12)] else [])
  {
  }
}
