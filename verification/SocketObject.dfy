/** The Socket object: its connecting phase, its user calls and its event handler change its
    fields exactly as the functions of SocketStream say. */
module SocketObject {
  import opened Basics
  import opened Stream
  import opened SocketStream
  import opened SourceSink
  import opened EventLoops

  class Socket {
    const loop: EventLoop
    var fd: int
    var onConnected: Option<Tag>
    var onClose: Option<Tag>
    var connected: bool
    var handler: Option<Handler>   // the callback this socket last gave the loop
    var events: Mask
    var receiveSink: Sink?
    var receiveCallback: Option<Tag>
    var sendQueue: seq<SendTuple>

    ghost predicate Valid()
      reads this, loop, Sources(sendQueue)
    {
      && ValidQueue(sendQueue)
      && -1 !in loop.registrations
      && (fd != -1 ==> fd in loop.registrations)
      && (fd == -1 ==> !connected && handler == None)
    }

    ghost function View(): SocketState
      reads this, loop, receiveSink, Sources(sendQueue)
    {
      SocketState(
        Endpoint(fd != -1, events,
                 if fd in loop.registrations then Some(loop.registrations[fd]) else None,
                 if receiveSink != null then Some(Reader(receiveSink.View(), receiveCallback)) else None,
                 QueueView(sendQueue), onClose),
        connected, handler)
    }

    constructor (loop: EventLoop)
      requires -1 !in loop.registrations
      ensures Valid() && this.loop == loop
      ensures View() == SocketState(Endpoint(false, {}, None, None, [], None), false, None)
    {
      this.loop := loop;
      fd, onConnected, onClose, connected, handler := -1, None, None, false, None;
      events, receiveSink, receiveCallback, sendQueue := {}, null, None, [];
    }

    method UpdateEventsLocked(mask: Mask)
      requires Valid()
      modifies this`events, loop
      ensures Valid() && View() == SockUpdateEvents(old(View()), mask) && events == mask
      ensures loop.registrations == if connected then old(loop.registrations)[fd := mask] else old(loop.registrations)
    {
      if connected {
        loop.Modify(fd, mask);
      }
      events := mask;
    }

    method Close()
      requires Valid()
      modifies this, loop
      ensures Valid() && View() == SockClosed(old(View())) && fd == -1
      ensures loop.registrations == old(loop.registrations) - {old(fd)}
      ensures onConnected == old(onConnected)
      ensures old(fd) != -1 ==> events == {} && receiveSink == null && sendQueue == [] && !connected && handler == None
      ensures old(fd) == -1 ==> View() == old(View())
    {
      if -1 == fd {
        return;
      }
      loop.Remove(fd);
      fd := -1;
      connected := false;
      handler := None;
      events := {};
      receiveSink, receiveCallback := null, None;
      sendQueue := [];
    }

    method Open(newFd: int, healthy: bool)
      requires Valid() && newFd != -1 && newFd !in loop.registrations
      modifies this, loop
      ensures Valid() && View() == SockOpened(old(View()), healthy) && fd == newFd
      ensures connected == healthy && events == {Read} && loop.registrations[newFd] == {Read}
    {
      Close();
      events := {Read};
      loop.Add(newFd, events);
      handler := Some(EventHandler);
      fd := newFd;
      connected := healthy;
    }

    /** connect(); `newFd` is what socket() returned, `result` how the rest went. */
    method Connect(newFd: int, result: ConnectResult) returns (notified: Option<Tag>)
      requires Valid() && newFd != -1 && newFd !in loop.registrations
      modifies this, loop
      ensures Valid() && View() == SockConnected(old(View()), result)
      ensures fd == (if result.Failed? then -1 else newFd) && events == {Read}
      ensures result.Failed? ==> newFd !in loop.registrations
      ensures result.Immediate? ==> connected && loop.registrations[newFd] == {Read}
      ensures result.InProgress? ==> !connected && loop.registrations[newFd] == {Read, Write}
      ensures notified == if result.Immediate? then old(onConnected) else None
    {
      notified := None;
      Close();
      var callback := EventHandler;
      var mask := {Read};
      events := mask;
      match result {
        case Failed => return;
        case InProgress =>
          callback := ConnectHandler;
          mask := mask + {Write};
          assert mask == {Read, Write};
        case Immediate =>
          connected := true;
      }
      loop.Add(newFd, mask);
      handler := Some(callback);
      fd := newFd;
      if connected {
        notified := onConnected;
      }
    }

    method CallbackAndClose(error: int) returns (calls: seq<Call>)
      requires Valid()
      modifies this, loop
      ensures Valid() && View() == SockClosed(old(View()))
      ensures calls == if old(onClose).Some? then [OnClose(old(onClose).value, error)] else []
    {
      calls := [];
      if onClose.Some? {
        calls := [OnClose(onClose.value, error)];
      }
      Close();
    }

    /** The handler of the connecting phase; `error` is the socket's pending error. */
    method OnConnect(error: int) returns (calls: seq<Call>, notified: Option<Tag>)
      requires Valid() && handler == Some(ConnectHandler)
      modifies this, loop
      ensures Valid()
      ensures View() == if error != 0 then SockClosed(old(View())) else Flagged(Reregistered(old(View())))
      ensures calls == if error != 0 && old(onClose).Some? then [OnClose(old(onClose).value, error)] else []
      ensures notified == if error != 0 then None else old(onConnected)
      ensures error == 0 ==> connected && handler == Some(EventHandler) && fd == old(fd) && fd in loop.registrations
      ensures error == 0 ==> loop.registrations[fd] == events == old(events)
    {
      calls, notified := [], None;
      if 0 != error {
        calls := CallbackAndClose(error);
        return;
      }
      loop.Remove(fd);
      loop.Add(fd, events);
      handler := Some(EventHandler);
      connected := true;
      notified := onConnected;
    }

    method Receive(sink: Sink?, callback: Option<Tag>)
      requires Valid()
      modifies this, loop
      ensures Valid() && fd == old(fd) && sendQueue == old(sendQueue) && receiveSink == sink
      ensures events == if sink == null then old(events) - {Read} else old(events) + {Read}
      ensures loop.registrations ==
                if connected && events != old(events)
                then old(loop.registrations)[fd := events] else old(loop.registrations)
      ensures View() == SockReceived(old(View()), if sink == null then None else Some(Reader(sink.View(), callback)))
    {
      var mask := events;
      if sink != null {
        mask := mask + {Read};
      } else {
        mask := mask - {Read};
      }
      if mask != events {
        UpdateEventsLocked(mask);
      }
      receiveSink, receiveCallback := sink, callback;
    }

    method Send(source: Source, callback: Option<Tag>)
      requires Valid() && source.Valid() && source !in Sources(sendQueue)
      modifies this, loop
      ensures Valid() && fd == old(fd) && receiveSink == old(receiveSink)
      ensures sendQueue == old(sendQueue) + [SendTuple(source, callback)]
      ensures events == if old(sendQueue) == [] then old(events) + {Write} else old(events)
      ensures loop.registrations ==
                if connected && events != old(events)
                then old(loop.registrations)[fd := events] else old(loop.registrations)
      ensures View() == SockSent(old(View()), Stream.Send(source.data, source.progress, callback))
    {
      var mask := events;
      if sendQueue == [] {
        mask := mask + {Write};
      }
      sendQueue := sendQueue + [SendTuple(source, callback)];
      if mask != events {
        UpdateEventsLocked(mask);
      }
    }

    // An event with an error bit: the handler does nothing else with it.
    method OnError(error: int) returns (calls: seq<Call>)
      requires Valid() && connected
      modifies this, loop
      ensures Valid() && View() == SockClosed(old(View()))
      ensures calls == if old(onClose).Some? then [OnClose(old(onClose).value, error)] else []
    {
      calls := CallbackAndClose(error);
    }

    // The lambda `completed` of the read half.
    method Completed() returns (calls: seq<Call>)
      requires Valid() && connected && fd != -1 && receiveSink != null
      modifies this, loop
      ensures Valid() && View() == old(View()).(ep := ReadCompleted(old(View()).ep))
      ensures calls == if old(receiveCallback).Some?
                       then [OnRead(old(receiveCallback).value, old(receiveSink.data))] else []
      ensures fd == old(fd) && receiveSink == null && events == old(events) - {Read}
    {
      UpdateEventsLocked(events - {Interest.Read});
      var sink, callback := receiveSink, receiveCallback;
      receiveSink, receiveCallback := null, None;
      calls := if callback.Some? then [OnRead(callback.value, sink.data)] else [];
    }

    // recv() stored `bytes` at the extension: the sink is trimmed to them, and done if full.
    method Received(at: nat, bytes: seq<byte>) returns (calls: seq<Call>)
      requires Valid() && connected && fd != -1
      requires receiveSink != null && at + |bytes| <= |receiveSink.data| && receiveSink.backed
      modifies this, loop, receiveSink
      ensures Valid()
      ensures var sink := SinkView(old(receiveSink.maximum), old(receiveSink.data)[..at] + bytes, true);
        && old(receiveSink).View() == sink
        && if sink.maximum == 0 || |sink.data| == sink.maximum then
             && View() == old(View()).(ep := ReadCompleted(old(View()).ep))
             && calls == if old(receiveCallback).Some? then [OnRead(old(receiveCallback).value, sink.data)] else []
           else
             && View() == old(View()).(ep := old(View()).ep.(reader := Some(Reader(sink, old(receiveCallback)))))
             && calls == []
    {
      ghost var queue := QueueView(sendQueue);
      receiveSink.Keep(at, bytes);
      assert QueueView(sendQueue) == queue;
      calls := [];
      var full := receiveSink.Full();
      if full {
        calls := Completed();
      }
    }

    // Makes room for what is available; `found` is false without storage.
    method Extend(available: nat, filler: seq<byte>) returns (found: bool)
      requires Valid() && fd != -1 && receiveSink != null && receiveSink.View().WithinMaximum()
      requires |filler| == receiveSink.View().Headroom(available)
      modifies receiveSink
      ensures Valid() && found == receiveSink.backed
      ensures View() == old(View()).(ep := old(View()).ep.(reader := Some(Reader(old(receiveSink.View()).Extended(filler), receiveCallback))))
    {
      ghost var queue := QueueView(sendQueue);
      var headroom := receiveSink.HeadroomWithin(available);
      found := receiveSink.Produce(filler);
      assert QueueView(sendQueue) == queue;
    }

    /** The read half of the handler, under the kernel's answer `r`. */
    method OnReadable(r: ReadResult) returns (calls: seq<Call>)
      requires Valid() && connected && fd != -1 && receiveSink != null && PossibleRead(receiveSink.View(), r)
      modifies this, loop, receiveSink
      ensures Valid() && View() == SockReadHalf(old(View()), r)
      ensures var out := ReadHalf(old(View()).ep, r); calls == out.calls && old(receiveSink).View() == out.sink
    {
      if r.IoctlFailed? {
        calls := CallbackAndClose(r.errno);
        return;
      }
      var unextended := |receiveSink.data|;
      var found := Extend(r.available, r.filler);
      if !found {
        calls := CallbackAndClose(ENOMEM);
        return;
      }
      if r.ReadFailed? {
        calls := CallbackAndClose(r.errno);
        return;
      }
      if r.bytes == [] {
        var done := Completed();
        var closed := CallbackAndClose(0);
        calls := done + closed;
        return;
      }
      calls := Received(unextended, r.bytes);
    }

    // The front source is sent: its entry goes, and the write interest with the last one.
    method PopFront() returns (calls: seq<Call>)
      requires Valid() && connected && fd != -1 && sendQueue != []
      modifies this, loop
      ensures Valid()
      ensures var popped := old(View()).ep.(queue := old(View()).ep.queue[1..]);
        View() == old(View()).(ep := if popped.queue == [] then UpdateEvents(popped, popped.events - {Write}) else popped)
      ensures calls == if old(sendQueue)[0].callback.Some? then [OnWritten(old(sendQueue)[0].callback.value)] else []
    {
      ghost var queue := QueueView(sendQueue);
      var completed := sendQueue[0];
      sendQueue := sendQueue[1..];
      assert QueueView(sendQueue) == queue[1..];
      if sendQueue == [] {
        UpdateEventsLocked(events - {Interest.Write});
      }
      assert QueueView(sendQueue) == queue[1..];
      calls := if completed.callback.Some? then [OnWritten(completed.callback.value)] else [];
    }

    /** The write half of the handler; the kernel accepts `size` bytes or fails. */
    method OnWritable(size: int, errno: int) returns (calls: seq<Call>)
      requires Valid() && connected && fd != -1 && PossibleWrite(View().ep, size)
      modifies this, loop, sendQueue[0].source
      ensures Valid() && View() == SockWriteHalf(old(View()), size, errno)
      ensures calls == WriteHalf(old(View()).ep, size, errno).1
      ensures old(sendQueue)[0].source.progress == old(sendQueue[0].source.progress) + if size < 0 then 0 else size
    {
      var source := sendQueue[0].source;
      if size < 0 {
        calls := CallbackAndClose(errno);
        return;
      }
      ghost var queue, front := QueueView(sendQueue), QueueView(sendQueue)[0];
      var _ := source.Consume(size);
      calls := [];
      var empty := source.Empty();
      if empty {
        assert QueueView(sendQueue)[1..] == queue[1..];
        calls := PopFront();
      } else {
        assert QueueView(sendQueue) == [front.(progress := front.progress + size)] + queue[1..];
      }
    }
  }
}
