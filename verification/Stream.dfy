/** The streaming engine on values: what one call or one locked region of
    FileDescriptorIO (and of a connected Socket) does to the endpoint's fields.
    The classes are proved against these functions; whole runs are in StreamRuns. */
module Stream {
  import opened Basics

  datatype Interest = Read | Write | Error | Hup

  type Mask = set<Interest>

  // Callbacks are opaque to hlib; a tag says which one was stored.
  type Tag = int

  const MINIMAL_CAPACITY: nat := 0
  const ENOMEM: int := 12

  /** A Sink over its container.  `backed` says whether the container's
      data() is non-null: a Buffer that never held a byte has none. */
  datatype SinkView = SinkView(maximum: nat, data: seq<byte>, backed: bool) {

    predicate WithinMaximum() {
      maximum == MINIMAL_CAPACITY || |data| <= maximum
    }

    predicate Full() {
      maximum == MINIMAL_CAPACITY || |data| == maximum
    }

    function Headroom(limit: nat): nat
      requires WithinMaximum()
    {
      if maximum == MINIMAL_CAPACITY then |data| + limit else Min(maximum - |data|, limit)
    }

    // The container after produce(|filler|); `filler` is what the new bytes happen to hold.
    function Extended(filler: seq<byte>): SinkView {
      this.(data := data + filler, backed := backed || data + filler != [])
    }
  }

  datatype Reader = Reader(sink: SinkView, callback: Option<Tag>)

  datatype Send = Send(data: seq<byte>, progress: nat, callback: Option<Tag>) {
    predicate Valid() {
      progress <= |data|
    }

    function Payload(): seq<byte>
      requires Valid()
    {
      data[progress..]
    }
  }

  datatype Call = OnRead(tag: Tag, content: seq<byte>) | OnWritten(tag: Tag) | OnClose(tag: Tag, error: int)

  datatype Endpoint = Endpoint(isOpen: bool, events: Mask, registered: Option<Mask>,
                               reader: Option<Reader>, queue: seq<Send>, onClose: Option<Tag>)

  /** What the kernel answers in the read half: the FIONREAD ioctl fails, read() fails, or
      `bytes` arrive (none at end of file). */
  datatype ReadResult =
    | IoctlFailed(errno: int)
    | ReadFailed(available: nat, filler: seq<byte>, errno: int)
    | Got(available: nat, filler: seq<byte>, bytes: seq<byte>)

  predicate PossibleRead(sink: SinkView, r: ReadResult) {
    && sink.WithinMaximum()
    && (!r.IoctlFailed? ==> |r.filler| == sink.Headroom(r.available))
    && (r.Got? ==> |r.bytes| <= sink.Headroom(r.available))
  }

  // The endpoint after a step, the callbacks it made in order, and the sink it worked on.
  datatype Outcome = Outcome(ep: Endpoint, calls: seq<Call>, sink: SinkView)

  function UpdateEvents(e: Endpoint, events: Mask): Endpoint {
    e.(events := events, registered := Some(events))
  }

  function Closed(e: Endpoint): Endpoint {
    if !e.isOpen then e else Endpoint(false, {}, None, None, [], e.onClose)
  }

  function Opened(e: Endpoint): Endpoint {
    var c := Closed(e);
    c.(isOpen := true, registered := Some(c.events))
  }

  function CloseCalls(e: Endpoint, error: int): seq<Call> {
    if e.onClose.Some? then [OnClose(e.onClose.value, error)] else []
  }

  function Installed(e: Endpoint, reader: Option<Reader>): Endpoint {
    var events := if reader.Some? then e.events + {Read} else e.events - {Read};
    (if events != e.events then UpdateEvents(e, events) else e).(reader := reader)
  }

  function Submitted(e: Endpoint, send: Send): Endpoint {
    var events := if e.queue == [] then e.events + {Write} else e.events;
    (if events != e.events then UpdateEvents(e, events) else e).(queue := e.queue + [send])
  }

  function ReadCalls(callback: Option<Tag>, sink: SinkView): seq<Call> {
    if callback.Some? then [OnRead(callback.value, sink.data)] else []
  }

  // The lambda `completed` of the read half.
  function ReadCompleted(e: Endpoint): Endpoint {
    UpdateEvents(e, e.events - {Read}).(reader := None)
  }

  function ReadHalf(e: Endpoint, r: ReadResult): Outcome
    requires e.reader.Some? && PossibleRead(e.reader.value.sink, r)
  {
    var Reader(sink, callback) := e.reader.value;
    if r.IoctlFailed? then Outcome(Closed(e), CloseCalls(e, r.errno), sink) else
    var extended := sink.Extended(r.filler);
    if !extended.backed then Outcome(Closed(e), CloseCalls(e, ENOMEM), extended)
    else if r.ReadFailed? then Outcome(Closed(e), CloseCalls(e, r.errno), extended)
    else if r.bytes == [] then
      Outcome(Closed(ReadCompleted(e)), ReadCalls(callback, extended) + CloseCalls(e, 0), extended)
    else
      var trimmed := extended.(data := sink.data + r.bytes);
      if trimmed.Full() then Outcome(ReadCompleted(e), ReadCalls(callback, trimmed), trimmed)
      else Outcome(e.(reader := Some(Reader(trimmed, callback))), [], trimmed)
  }

  /** What write() answers: a negative `size` is the error return. */
  predicate PossibleWrite(e: Endpoint, size: int) {
    && e.queue != []
    && e.queue[0].Valid()
    && size <= |e.queue[0].Payload()|
  }

  function WriteHalf(e: Endpoint, size: int, errno: int): (Endpoint, seq<Call>)
    requires PossibleWrite(e, size)
  {
    if size < 0 then (Closed(e), CloseCalls(e, errno)) else
    var front := e.queue[0].(progress := e.queue[0].progress + size);
    if front.progress < |front.data| then (e.(queue := [front] + e.queue[1..]), []) else
    var popped := e.(queue := e.queue[1..]);
    var calls := if front.callback.Some? then [OnWritten(front.callback.value)] else [];
    (if popped.queue == [] then UpdateEvents(popped, popped.events - {Write}) else popped, calls)
  }
}
