/** History of one open session of an endpoint, and what every step keeps of it.
    Both FileDescriptorIO and a connected Socket move bytes through these steps. */
module StreamHistory {
  import opened Basics
  import opened Stream

  /** Sending side: the sources in write() order, the bytes the kernel accepted, how many
      sources were popped and which OnWritten callbacks ran.  Receiving side: the bytes the
      kernel delivered, what the installed sink held when it was handed over, what each
      earlier sink gained while installed, the sinks completed by a non-empty read, and the
      bytes a failing or end-of-file read left in the last sink without having read them. */
  datatype Log = Log(
    written: seq<Send>, sent: seq<byte>, popped: nat, fired: seq<Tag>,
    received: seq<byte>, base: seq<byte>, retired: seq<seq<byte>>, completed: seq<SinkView>, junk: seq<byte>)

  const EMPTY_LOG := Log([], [], 0, [], [], [], [], [], [])

  // ---- Sending side ----

  ghost predicate AllValid(queue: seq<Send>) {
    forall s | s in queue :: s.Valid()
  }

  /** Everything handed to write(), in order. */
  ghost function Enqueued(written: seq<Send>): seq<byte>
    requires AllValid(written)
  {
    if written == [] then [] else Enqueued(written[..|written| - 1]) + written[|written| - 1].Payload()
  }

  /** What the queue still has to send, in order. */
  ghost function Unsent(queue: seq<Send>): seq<byte>
    requires AllValid(queue)
  {
    if queue == [] then [] else queue[0].Payload() + Unsent(queue[1..])
  }

  ghost function Tags(written: seq<Send>): seq<Tag> {
    if written == [] then []
    else
      var last := written[|written| - 1];
      Tags(written[..|written| - 1]) + if last.callback.Some? then [last.callback.value] else []
  }

  ghost function WrittenTags(calls: seq<Call>): seq<Tag> {
    if calls == [] then []
    else (if calls[0].OnWritten? then [calls[0].tag] else []) + WrittenTags(calls[1..])
  }

  /** Conservation and FIFO: accepted ++ unsent is everything enqueued; the queue is the
      tail of the write() order with only its front advanced; exactly the popped sources
      have fired their callbacks, in order. */
  ghost predicate SenderInv(queue: seq<Send>, log: Log) {
    && Matches(queue, log.written, log.popped)
    && Conserved(log.sent, queue, log.written)
    && log.fired == Tags(log.written[..log.popped])
  }

  ghost predicate Matches(queue: seq<Send>, written: seq<Send>, popped: nat) {
    && AllValid(written) && AllValid(queue)
    && |written| == popped + |queue|
    && (queue != [] ==> Advanced(queue[0], written[popped]))
    && (forall i | 0 < i < |queue| :: queue[i] == written[popped + i])
  }

  ghost predicate Advanced(now: Send, asWritten: Send) {
    && now.data == asWritten.data && now.callback == asWritten.callback
    && asWritten.progress <= now.progress <= |now.data|
  }

  ghost predicate Conserved(sent: seq<byte>, queue: seq<Send>, written: seq<Send>)
    requires AllValid(queue) && AllValid(written)
  {
    sent + Unsent(queue) == Enqueued(written)
  }

  ghost function LogSubmit(log: Log, send: Send): Log {
    log.(written := log.written + [send])
  }

  ghost function LogWrite(log: Log, e: Endpoint, size: int): Log
    requires PossibleWrite(e, size)
  {
    if size < 0 then log else
    var front := e.queue[0];
    log.(sent := log.sent + front.data[front.progress..front.progress + size],
         popped := log.popped + |e.queue| - |WriteHalf(e, size, 0).0.queue|,
         fired := log.fired + WrittenTags(WriteHalf(e, size, 0).1))
  }

  lemma {:induction false} UnsentSnoc(queue: seq<Send>, s: Send)
    requires AllValid(queue) && s.Valid()
    ensures AllValid(queue + [s]) && Unsent(queue + [s]) == Unsent(queue) + s.Payload()
    decreases |queue|
  {
    if queue == [] {
      assert [s][1..] == [];
    } else {
      UnsentSnoc(queue[1..], s);
      assert (queue + [s])[1..] == queue[1..] + [s];
      Associative(queue[0].Payload(), Unsent(queue[1..]), s.Payload());
    }
  }

  lemma EnqueuedSnoc(written: seq<Send>, s: Send)
    requires AllValid(written) && s.Valid()
    ensures AllValid(written + [s]) && Enqueued(written + [s]) == Enqueued(written) + s.Payload()
  {
    assert (written + [s])[..|written|] == written;
  }

  lemma SubmitConserves(sent: seq<byte>, queue: seq<Send>, written: seq<Send>, s: Send)
    requires AllValid(queue) && AllValid(written) && s.Valid() && Conserved(sent, queue, written)
    ensures AllValid(queue + [s]) && AllValid(written + [s]) && Conserved(sent, queue + [s], written + [s])
  {
    UnsentSnoc(queue, s);
    EnqueuedSnoc(written, s);
    hide Unsent, Enqueued;
    Associative(sent, Unsent(queue), s.Payload());
  }

  lemma SubmitKeepsSender(queue: seq<Send>, log: Log, s: Send)
    requires SenderInv(queue, log) && s.Valid()
    ensures SenderInv(queue + [s], LogSubmit(log, s))
  {
    hide Conserved, Tags;
    SubmitConserves(log.sent, queue, log.written, s);
    assert (log.written + [s])[..log.popped] == log.written[..log.popped];
  }

  // Some bytes of the front source are accepted.
  lemma AdvanceConserves(sent: seq<byte>, queue: seq<Send>, written: seq<Send>, front': Send)
    requires AllValid(queue) && AllValid(written) && queue != [] && Conserved(sent, queue, written)
    requires front'.data == queue[0].data && queue[0].progress <= front'.progress <= |front'.data|
    ensures AllValid([front'] + queue[1..])
    ensures Conserved(sent + front'.data[queue[0].progress..front'.progress], [front'] + queue[1..], written)
  {
    var front := queue[0];
    var chunk, later := front.data[front.progress..front'.progress], Unsent(queue[1..]);
    assert ([front'] + queue[1..])[1..] == queue[1..];
    assert Unsent([front'] + queue[1..]) == front'.Payload() + later;
    hide Unsent, Enqueued;
    assert front.Payload() == chunk + front'.Payload();
    Associative(chunk, front'.Payload(), later);
    Associative(sent, chunk, front'.Payload() + later);
  }

  // The front source, with nothing left, leaves the queue.
  lemma PopConserves(sent: seq<byte>, queue: seq<Send>, written: seq<Send>)
    requires AllValid(queue) && AllValid(written) && queue != [] && Conserved(sent, queue, written)
    requires queue[0].Payload() == []
    ensures AllValid(queue[1..]) && Conserved(sent, queue[1..], written)
  {
    assert Unsent(queue) == [] + Unsent(queue[1..]) == Unsent(queue[1..]);
  }

  lemma AdvanceMatches(queue: seq<Send>, written: seq<Send>, popped: nat, front': Send)
    requires Matches(queue, written, popped) && queue != []
    requires front'.data == queue[0].data && front'.callback == queue[0].callback
    requires queue[0].progress <= front'.progress <= |front'.data|
    ensures Matches([front'] + queue[1..], written, popped)
  {
  }

  lemma PopMatches(queue: seq<Send>, written: seq<Send>, popped: nat)
    requires Matches(queue, written, popped) && queue != []
    ensures Matches(queue[1..], written, popped + 1)
  {
    forall i | 0 <= i < |queue[1..]|
      ensures queue[1..][i] == written[popped + 1 + i] && queue[1..][i].Valid()
    {
      assert queue[1..][i] == queue[i + 1];
    }
  }

  lemma TagsStep(written: seq<Send>, popped: nat)
    requires popped < |written|
    ensures Tags(written[..popped + 1]) == Tags(written[..popped]) +
      if written[popped].callback.Some? then [written[popped].callback.value] else []
  {
    assert written[..popped + 1][..popped] == written[..popped];
  }

  // What write() does to the front: the source after it, and the calls made.
  lemma WriteHalfShape(e: Endpoint, size: nat, errno: int)
    requires PossibleWrite(e, size)
    ensures var front := e.queue[0];
      var front' := front.(progress := front.progress + size);
      var queue' := WriteHalf(e, size, errno).0.queue;
      && queue' == (if front'.progress < |front.data| then [front'] + e.queue[1..] else e.queue[1..])
      && WrittenTags(WriteHalf(e, size, 0).1) ==
           if front'.progress < |front.data| || front.callback.None? then [] else [front.callback.value]
  {
    var calls := WriteHalf(e, size, 0).1;
    if calls != [] {
      assert calls[1..] == [];
    }
  }

  // The history after the front source, its bytes all accepted, was popped.
  ghost function LogPop(log: Log, front: Send): Log {
    log.(popped := log.popped + 1, fired := log.fired + if front.callback.Some? then [front.callback.value] else [])
  }

  lemma AdvanceKeepsSender(queue: seq<Send>, log: Log, front': Send)
    requires SenderInv(queue, log) && queue != []
    requires front'.data == queue[0].data && front'.callback == queue[0].callback
    requires queue[0].progress <= front'.progress <= |front'.data|
    ensures SenderInv([front'] + queue[1..], log.(sent := log.sent + front'.data[queue[0].progress..front'.progress]))
  {
    AdvanceMatches(queue, log.written, log.popped, front');
    AdvanceConserves(log.sent, queue, log.written, front');
    hide Conserved, Matches, Tags;
  }

  lemma PopKeepsSender(queue: seq<Send>, log: Log)
    requires SenderInv(queue, log) && queue != [] && queue[0].Payload() == []
    ensures SenderInv(queue[1..], LogPop(log, queue[0]))
  {
    PopMatches(queue, log.written, log.popped);
    PopConserves(log.sent, queue, log.written);
    TagsStep(log.written, log.popped);
    hide Conserved, Matches, Tags;
  }

  lemma WriteKeepsSender(e: Endpoint, size: int, errno: int, log: Log)
    requires SenderInv(e.queue, log) && PossibleWrite(e, size) && size >= 0
    ensures SenderInv(WriteHalf(e, size, errno).0.queue, LogWrite(log, e, size))
  {
    hide SenderInv, WriteHalf, WrittenTags;
    var front := e.queue[0];
    var front' := front.(progress := front.progress + size);
    var advanced := [front'] + e.queue[1..];
    var log1 := log.(sent := log.sent + front.data[front.progress..front'.progress]);
    WriteHalfShape(e, size, errno);
    WriteHalfShape(e, size, 0);
    AdvanceKeepsSender(e.queue, log, front');
    if front'.progress == |front.data| {
      assert advanced[1..] == e.queue[1..];
      PopKeepsSender(advanced, log1);
      assert LogWrite(log, e, size) == LogPop(log1, front');
    } else {
      assert LogWrite(log, e, size) == log1;
    }
  }

  /** All bytes of the popped sources were accepted, and of the front exactly those it is
      advanced by. */
  lemma PoppedAreSent(queue: seq<Send>, log: Log)
    requires SenderInv(queue, log)
    ensures log.sent == Enqueued(log.written[..log.popped]) +
      if queue == [] then [] else queue[0].data[log.written[log.popped].progress..queue[0].progress]
  {
    hide Tags;
    EnqueuedSplit(log.written, log.popped);
    var before, rest := Enqueued(log.written[..log.popped]), log.written[log.popped..];
    if queue == [] {
      assert rest == [] && log.sent + [] == log.sent && before + [] == before;
    } else {
      var front, asWritten := queue[0], rest[0];
      assert queue[1..] == rest[1..];
      var part, later := front.data[asWritten.progress..front.progress], Unsent(rest[1..]);
      assert Unsent(queue) == front.Payload() + later && Unsent(rest) == asWritten.Payload() + later;
      hide Unsent, Enqueued;
      assert asWritten.Payload() == part + front.Payload();
      Associative(part, front.Payload(), later);
      Associative(before, part, front.Payload() + later);
      SameEnd(log.sent, before + part, front.Payload() + later);
    }
  }

  /** The sending half, spelled out: conservation, FIFO, and exactly the callbacks of the
      popped sources, wholly accepted. */
  lemma SenderInvMeans(queue: seq<Send>, log: Log)
    requires SenderInv(queue, log)
    ensures AllValid(log.written) && AllValid(queue) && |log.written| == log.popped + |queue|
    ensures AllValid(log.written[..log.popped]) && Enqueued(log.written[..log.popped]) <= log.sent
    ensures log.sent + Unsent(queue) == Enqueued(log.written)
    ensures log.fired == Tags(log.written[..log.popped])
    ensures forall i | 0 < i < |queue| :: queue[i] == log.written[log.popped + i]
  {
    hide Tags, Unsent, Enqueued;
    PoppedAreSent(queue, log);
    var part := if queue == [] then [] else queue[0].data[log.written[log.popped].progress..queue[0].progress];
    hide Advanced;
    StartOfSum(log.sent, Enqueued(log.written[..log.popped]), part);
  }

  lemma StartOfSum(sum: seq<byte>, a: seq<byte>, b: seq<byte>)
    requires sum == a + b
    ensures a <= sum
  {
  }

  lemma UnsentFrom(written: seq<Send>, k: nat)
    requires AllValid(written) && k < |written|
    ensures Unsent(written[k..]) == written[k].Payload() + Unsent(written[k + 1..])
  {
    assert written[k..][1..] == written[k + 1..];
  }

  lemma {:induction false} EnqueuedSplit(written: seq<Send>, k: nat)
    requires AllValid(written) && k <= |written|
    ensures Enqueued(written) == Enqueued(written[..k]) + Unsent(written[k..])
    decreases |written| - k
  {
    if k == |written| {
      assert written[..k] == written && Enqueued(written) + [] == Enqueued(written);
    } else {
      UnsentFrom(written, k);
      hide Enqueued, Unsent;
      EnqueuedSplit(written, k + 1);
      EnqueuedSnoc(written[..k], written[k]);
      assert written[..k + 1] == written[..k] + [written[k]];
      Associative(Enqueued(written[..k]), written[k].Payload(), Unsent(written[k + 1..]));
    }
  }

  lemma SameEnd(a: seq<byte>, b: seq<byte>, end: seq<byte>)
    requires a + end == b + end
    ensures a == b
  {
    assert |a| == |b|;
    assert a == (a + end)[..|a|] && b == (b + end)[..|b|];
  }

  // The sending half of the history is all SenderInv looks at.
  lemma OtherSideKept(queue: seq<Send>, log: Log, log': Log)
    requires SenderInv(queue, log)
    requires log'.written == log.written && log'.sent == log.sent
    requires log'.popped == log.popped && log'.fired == log.fired
    ensures SenderInv(queue, log')
  {
    hide Conserved, Matches, Tags;
  }

  /** After a close the kernel has accepted a prefix of what was enqueued. */
  ghost predicate SentPrefix(log: Log) {
    AllValid(log.written) && log.sent <= Enqueued(log.written)
  }

  lemma SenderInvGivesPrefix(queue: seq<Send>, log: Log)
    requires SenderInv(queue, log)
    ensures SentPrefix(log)
  {
  }

  // ---- Receiving side ----

  /** Conservation: what the sinks gained, in order, is what the kernel delivered (plus
      `junk`); bytes a sink already held stay; an unfinished minimal sink has gained nothing;
      a bounded sink never exceeds its maximum and is installed only while not full;
      completed sinks were filled to the maximum. */
  ghost predicate ReaderInv(reader: Option<Reader>, log: Log) {
    && log.received + log.junk == Concat(log.retired) + Gained(reader, log)
    && (reader.Some? ==>
          && log.junk == []
          && log.base <= reader.value.sink.data
          && AcceptableSink(reader.value.sink)
          && (reader.value.sink.maximum == MINIMAL_CAPACITY ==> reader.value.sink.data == log.base))
    && (forall c | c in log.completed :: c.maximum == MINIMAL_CAPACITY || |c.data| == c.maximum)
  }

  /** A sink may be handed over unless it is bounded and already full. */
  predicate AcceptableSink(sink: SinkView) {
    sink.maximum == MINIMAL_CAPACITY || |sink.data| < sink.maximum
  }

  ghost function Gained(reader: Option<Reader>, log: Log): seq<byte> {
    if reader.Some? && log.base <= reader.value.sink.data then reader.value.sink.data[|log.base|..] else []
  }

  ghost function LogInstall(log: Log, previous: Option<Reader>, reader: Option<Reader>): Log {
    log.(retired := log.retired + [Gained(previous, log)],
         base := if reader.Some? then reader.value.sink.data else [])
  }

  // The sink leaves the endpoint holding `final`, having received `bytes`.
  ghost function LogRetire(log: Log, final: SinkView, bytes: seq<byte>, completed: bool, junk: seq<byte>): Log {
    log.(received := log.received + bytes,
         retired := log.retired + [if log.base <= final.data then final.data[|log.base|..] else []],
         base := [],
         completed := if completed then log.completed + [final] else log.completed,
         junk := junk)
  }

  ghost function LogRead(log: Log, e: Endpoint, r: ReadResult): Log
    requires e.reader.Some? && PossibleRead(e.reader.value.sink, r)
  {
    var out := ReadHalf(e, r);
    var bytes := if r.Got? then r.bytes else [];
    if out.ep.reader.Some? then log.(received := log.received + bytes)
    else if out.ep.isOpen then LogRetire(log, out.sink, bytes, true, [])
    else LogRetire(log, out.sink, [], false, out.sink.data[|e.reader.value.sink.data|..])
  }

  // The receiving half of the history is all ReaderInv looks at.
  lemma SubmitKeepsReader(reader: Option<Reader>, log: Log, s: Send)
    requires ReaderInv(reader, log)
    ensures ReaderInv(reader, LogSubmit(log, s))
  {
    hide Concat, AcceptableSink;
    assert Gained(reader, LogSubmit(log, s)) == Gained(reader, log);
  }

  lemma WriteKeepsReader(e: Endpoint, size: int, log: Log)
    requires ReaderInv(e.reader, log) && PossibleWrite(e, size)
    ensures ReaderInv(e.reader, LogWrite(log, e, size)) && LogWrite(log, e, size).junk == log.junk
  {
    hide Concat, AcceptableSink, WriteHalf, WrittenTags;
    assert Gained(e.reader, LogWrite(log, e, size)) == Gained(e.reader, log);
  }

  lemma RetireSum(received: seq<byte>, retired: seq<seq<byte>>, held: seq<byte>, bytes: seq<byte>, junk: seq<byte>)
    requires received == Concat(retired) + held
    ensures (received + bytes) + junk == Concat(retired + [held + (bytes + junk)])
  {
    ConcatSnoc(retired, held + (bytes + junk));
    hide Concat;
    Associative(received, bytes, junk);
    Associative(Concat(retired), held, bytes + junk);
  }

  lemma RetireKeepsReader(reader: Reader, log: Log, final: SinkView, bytes: seq<byte>, completed: bool, junk: seq<byte>)
    requires ReaderInv(Some(reader), log)
    requires final.data == reader.sink.data + (bytes + junk)
    requires completed ==> final.Full()
    ensures ReaderInv(None, LogRetire(log, final, bytes, completed, junk))
  {
    hide Concat;
    var held := reader.sink.data[|log.base|..];
    assert final.data[|log.base|..] == held + (bytes + junk);
    assert log.received + log.junk == log.received;
    RetireSum(log.received, log.retired, held, bytes, junk);
    var log' := LogRetire(log, final, bytes, completed, junk);
    assert Concat(log'.retired) + [] == Concat(log'.retired);
  }

  lemma InstallKeepsReader(previous: Option<Reader>, reader: Option<Reader>, log: Log)
    requires ReaderInv(previous, log) && log.junk == []
    requires reader.Some? ==> AcceptableSink(reader.value.sink)
    ensures ReaderInv(reader, LogInstall(log, previous, reader))
  {
    ConcatSnoc(log.retired, Gained(previous, log));
    hide Concat;
    var log' := LogInstall(log, previous, reader);
    assert Gained(reader, log') == [] && Concat(log'.retired) + [] == Concat(log'.retired);
  }

  lemma ReadKeepsReader(e: Endpoint, r: ReadResult, log: Log)
    requires e.isOpen && e.reader.Some? && PossibleRead(e.reader.value.sink, r)
    requires ReaderInv(e.reader, log)
    ensures ReaderInv(ReadHalf(e, r).ep.reader, LogRead(log, e, r))
    ensures ReadHalf(e, r).ep.isOpen ==> LogRead(log, e, r).junk == []
  {
    var out, before := ReadHalf(e, r), e.reader.value.sink.data;
    ReadExtends(e, r);
    if out.ep.reader.Some? {
      GrowKeepsReader(e.reader.value, log, out.ep.reader.value, r.bytes);
    } else if out.ep.isOpen {
      assert r.bytes + [] == r.bytes;
      RetireKeepsReader(e.reader.value, log, out.sink, r.bytes, true, []);
    } else {
      var junk := out.sink.data[|before|..];
      assert [] + junk == junk && out.sink.data == before + junk;
      RetireKeepsReader(e.reader.value, log, out.sink, [], false, junk);
    }
  }

  lemma GrowKeepsReader(reader: Reader, log: Log, grown: Reader, bytes: seq<byte>)
    requires ReaderInv(Some(reader), log)
    requires grown.sink.data == reader.sink.data + bytes && grown.sink.maximum == reader.sink.maximum
    requires grown.sink.WithinMaximum() && !grown.sink.Full()
    ensures ReaderInv(Some(grown), log.(received := log.received + bytes))
  {
    hide Concat;
    var held := reader.sink.data[|log.base|..];
    assert grown.sink.data[|log.base|..] == held + bytes;
    assert log.received + [] == log.received && (log.received + bytes) + [] == log.received + bytes;
    Associative(Concat(log.retired), held, bytes);
  }

  // A read half only ever adds to the end of the sink: the bytes read while the endpoint
  // stays open, the unread extension when it closes.
  lemma ReadExtends(e: Endpoint, r: ReadResult)
    requires e.isOpen && e.reader.Some? && PossibleRead(e.reader.value.sink, r)
    ensures var out, before := ReadHalf(e, r), e.reader.value.sink.data;
      && before <= out.sink.data
      && (out.ep.isOpen ==> r.Got? && out.sink.data == before + r.bytes && r.bytes != [])
      && (!out.ep.isOpen && r.Got? ==> r.bytes == [] && out.sink.data == before + r.filler)
      && (out.ep.reader.Some? ==> out.ep.isOpen && out.ep.reader.value.sink == out.sink && !out.sink.Full()
                                  && out.sink.maximum == e.reader.value.sink.maximum && out.sink.WithinMaximum())
      && (out.ep.isOpen && out.ep.reader.None? ==> out.sink.Full())
  {
  }

  // ---- The end of a session ----

  /** What remains true of the sending side: a prefix of the enqueued bytes was accepted, and
      exactly the callbacks of the popped sources, wholly accepted, ran. */
  ghost predicate SenderFinished(log: Log) {
    && SentPrefix(log)
    && log.popped <= |log.written| && AllValid(log.written[..log.popped])
    && Enqueued(log.written[..log.popped]) <= log.sent
    && log.fired == Tags(log.written[..log.popped])
  }

  /** And of both: what the sinks gained is what was received (plus `junk`). */
  ghost predicate Finished(log: Log) {
    SenderFinished(log) && ReaderInv(None, log)
  }

  lemma SenderInvFinishes(queue: seq<Send>, log: Log)
    requires SenderInv(queue, log)
    ensures SenderFinished(log)
  {
    SenderInvGivesPrefix(queue, log);
    PoppedAreSent(queue, log);
    hide Enqueued, Unsent, Tags, SentPrefix;
  }

  lemma FinishedSideKept(log: Log, log': Log)
    requires SenderFinished(log)
    requires log'.written == log.written && log'.sent == log.sent
    requires log'.popped == log.popped && log'.fired == log.fired
    ensures SenderFinished(log')
  {
    hide Enqueued, Tags;
  }

  // Closing drops the queue and releases the sink.
  ghost function LogClose(log: Log, e: Endpoint): Log {
    if e.reader.Some? then LogRetire(log, e.reader.value.sink, [], false, []) else log
  }

  lemma CloseRetires(reader: Option<Reader>, log: Log, e: Endpoint)
    requires e.reader == reader && ReaderInv(reader, log)
    ensures ReaderInv(None, LogClose(log, e))
  {
    if reader.Some? {
      assert reader.value.sink.data + ([] + []) == reader.value.sink.data;
      RetireKeepsReader(reader.value, log, reader.value.sink, [], false, []);
    }
  }
}
