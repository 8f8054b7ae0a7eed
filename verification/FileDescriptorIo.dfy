/** The FileDescriptorIO object: its fields change in place exactly as the functions of
    Stream say, so everything proved of those holds of the object. */
module FileDescriptorIo {
  import opened Basics
  import opened Stream
  import opened SourceSink
  import opened EventLoops

  class FileDescriptorIO {
    const loop: EventLoop
    var fd: int
    var onClose: Option<Tag>
    var events: Mask
    var readSink: Sink?
    var readCallback: Option<Tag>
    var writeQueue: seq<SendTuple>

    /** Queued sources are distinct objects; the descriptor is registered while open. */
    ghost predicate Valid()
      reads this, loop, Sources(writeQueue)
    {
      && ValidQueue(writeQueue)
      && -1 !in loop.registrations
      && (fd != -1 ==> fd in loop.registrations)
    }

    ghost function View(): Endpoint
      reads this, loop, readSink, Sources(writeQueue)
    {
      Endpoint(fd != -1, events,
               if fd in loop.registrations then Some(loop.registrations[fd]) else None,
               if readSink != null then Some(Reader(readSink.View(), readCallback)) else None,
               QueueView(writeQueue), onClose)
    }

    constructor (loop: EventLoop)
      requires -1 !in loop.registrations
      ensures Valid() && this.loop == loop
      ensures View() == Endpoint(false, {}, None, None, [], None)
    {
      this.loop := loop;
      fd, onClose, events := -1, None, {};
      readSink, readCallback, writeQueue := null, None, [];
    }

    method SetCloseCallback(callback: Option<Tag>)
      requires Valid()
      modifies this
      ensures Valid() && View() == old(View()).(onClose := callback)
    {
      onClose := callback;
    }

    method UpdateEventsLocked(mask: Mask)
      requires Valid() && fd != -1
      modifies this`events, loop
      ensures Valid() && events == mask
      ensures loop.registrations == old(loop.registrations)[fd := mask]
    {
      loop.Modify(fd, mask);
      events := mask;
    }

    method Close()
      requires Valid()
      modifies this, loop
      ensures Valid() && View() == Closed(old(View())) && fd == -1
      ensures loop.registrations == old(loop.registrations) - {old(fd)}
      ensures old(fd) != -1 ==> events == {} && readSink == null && writeQueue == []
      ensures old(fd) == -1 ==> View() == old(View())
    {
      if -1 == fd {
        return;
      }
      loop.Remove(fd);
      fd := -1;
      events := {};
      readSink, readCallback := null, None;
      writeQueue := [];
    }

    method Open(newFd: int)
      requires Valid() && newFd != -1 && newFd !in loop.registrations
      modifies this, loop
      ensures Valid() && View() == Opened(old(View())) && fd == newFd
    {
      Close();
      loop.Add(newFd, events);
      fd := newFd;
    }

    method Read(sink: Sink?, callback: Option<Tag>)
      requires Valid() && fd != -1
      modifies this, loop
      ensures Valid() && fd == old(fd) && writeQueue == old(writeQueue) && readSink == sink
      ensures View() == Installed(old(View()), if sink == null then None else Some(Reader(sink.View(), callback)))
    {
      var mask := events;
      if sink != null {
        mask := mask + {Interest.Read};
      } else {
        mask := mask - {Interest.Read};
      }
      if mask != events {
        UpdateEventsLocked(mask);
      }
      readSink, readCallback := sink, callback;
    }

    method Write(source: Source, callback: Option<Tag>)
      requires Valid() && fd != -1 && source.Valid() && source !in Sources(writeQueue)
      modifies this, loop
      ensures Valid() && fd == old(fd) && readSink == old(readSink)
      ensures writeQueue == old(writeQueue) + [SendTuple(source, callback)]
      ensures View() == Submitted(old(View()), Send(source.data, source.progress, callback))
    {
      var mask := events;
      if writeQueue == [] {
        mask := mask + {Interest.Write};
      }
      writeQueue := writeQueue + [SendTuple(source, callback)];
      if mask != events {
        UpdateEventsLocked(mask);
      }
    }

    method CallbackAndClose(error: int) returns (calls: seq<Call>)
      requires Valid()
      modifies this, loop
      ensures Valid() && View() == Closed(old(View()))
      ensures calls == if old(onClose).Some? then [OnClose(old(onClose).value, error)] else []
    {
      calls := [];
      if onClose.Some? {
        calls := [OnClose(onClose.value, error)];
      }
      Close();
    }

    // The lambda `completed` of the read half.
    method Completed() returns (calls: seq<Call>)
      requires Valid() && fd != -1 && readSink != null
      modifies this, loop
      ensures Valid() && View() == ReadCompleted(old(View()))
      ensures calls == if old(readCallback).Some? then [OnRead(old(readCallback).value, old(readSink.data))] else []
      ensures fd == old(fd) && readSink == null && events == old(events) - {Interest.Read}
    {
      UpdateEventsLocked(events - {Interest.Read});
      var sink, callback := readSink, readCallback;
      readSink, readCallback := null, None;
      calls := if callback.Some? then [OnRead(callback.value, sink.data)] else [];
    }

    // read() stored `bytes` at the extension: the sink is trimmed to them, and done if full.
    method Received(at: nat, bytes: seq<byte>) returns (calls: seq<Call>)
      requires Valid() && fd != -1 && readSink != null && at + |bytes| <= |readSink.data| && readSink.backed
      modifies this, loop, readSink
      ensures Valid()
      ensures var sink := SinkView(old(readSink.maximum), old(readSink.data)[..at] + bytes, true);
        && old(readSink).View() == sink
        && if sink.maximum == 0 || |sink.data| == sink.maximum then
             && View() == ReadCompleted(old(View()))
             && calls == if old(readCallback).Some? then [OnRead(old(readCallback).value, sink.data)] else []
           else View() == old(View()).(reader := Some(Reader(sink, old(readCallback)))) && calls == []
    {
      ghost var queue := QueueView(writeQueue);
      readSink.Keep(at, bytes);
      assert QueueView(writeQueue) == queue;
      calls := [];
      var full := readSink.Full();
      if full {
        calls := Completed();
      }
    }

    // Makes room for what is available; `found` is false without storage.
    method Extend(available: nat, filler: seq<byte>) returns (found: bool)
      requires Valid() && fd != -1 && readSink != null && readSink.View().WithinMaximum()
      requires |filler| == readSink.View().Headroom(available)
      modifies readSink
      ensures Valid() && found == readSink.backed
      ensures View() == old(View()).(reader := Some(Reader(old(readSink.View()).Extended(filler), readCallback)))
    {
      ghost var queue := QueueView(writeQueue);
      var headroom := readSink.HeadroomWithin(available);
      found := readSink.Produce(filler);
      assert QueueView(writeQueue) == queue;
    }

    /** The read half of the handler, under the kernel's answer `r`. */
    method OnReadable(r: ReadResult) returns (calls: seq<Call>)
      requires Valid() && fd != -1 && readSink != null && PossibleRead(readSink.View(), r)
      modifies this, loop, readSink
      ensures Valid()
      ensures var out := ReadHalf(old(View()), r);
        View() == out.ep && calls == out.calls && old(readSink).View() == out.sink
    {
      if r.IoctlFailed? {
        calls := CallbackAndClose(r.errno);
        return;
      }
      var unextended := |readSink.data|;
      var found := Extend(r.available, r.filler);
      if !found {
        calls := CallbackAndClose(ENOMEM);
        return;
      }
      if r.ReadFailed? {
        calls := CallbackAndClose(r.errno);
        return;
      }
      if r.bytes == [] {
        var done := Completed();
        var closed := CallbackAndClose(0);
        calls := done + closed;
        return;
      }
      calls := Received(unextended, r.bytes);
    }

    // The front source is sent: its entry goes, and the write interest with the last one.
    method PopFront() returns (calls: seq<Call>)
      requires Valid() && fd != -1 && writeQueue != []
      modifies this, loop
      ensures Valid()
      ensures var popped := old(View()).(queue := old(View()).queue[1..]);
        View() == if popped.queue == [] then UpdateEvents(popped, popped.events - {Interest.Write}) else popped
      ensures calls == if old(writeQueue)[0].callback.Some? then [OnWritten(old(writeQueue)[0].callback.value)] else []
    {
      ghost var queue := QueueView(writeQueue);
      var completed := writeQueue[0];
      writeQueue := writeQueue[1..];
      assert QueueView(writeQueue) == queue[1..];
      if writeQueue == [] {
        UpdateEventsLocked(events - {Interest.Write});
      }
      assert QueueView(writeQueue) == queue[1..];
      calls := if completed.callback.Some? then [OnWritten(completed.callback.value)] else [];
    }

    /** The write half of the handler; the kernel accepts `size` bytes or fails. */
    method OnWritable(size: int, errno: int) returns (calls: seq<Call>)
      requires Valid() && fd != -1 && PossibleWrite(View(), size)
      modifies this, loop, writeQueue[0].source
      ensures Valid()
      ensures var (e, made) := WriteHalf(old(View()), size, errno); View() == e && calls == made
      ensures old(writeQueue)[0].source.progress == old(writeQueue[0].source.progress) + if size < 0 then 0 else size
    {
      var source := writeQueue[0].source;
      if size < 0 {
        calls := CallbackAndClose(errno);
        return;
      }
      ghost var queue, front := QueueView(writeQueue), QueueView(writeQueue)[0];
      var _ := source.Consume(size);
      calls := [];
      var empty := source.Empty();
      if empty {
        assert QueueView(writeQueue)[1..] == queue[1..];
        calls := PopFront();
      } else {
        assert QueueView(writeQueue) == [front.(progress := front.progress + size)] + queue[1..];
      }
    }
  }
}
