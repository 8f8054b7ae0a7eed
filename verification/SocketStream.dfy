/** Socket on values: FileDescriptorIO's read and write halves behind a connecting phase in
    which the mask is only remembered, not registered. */
module SocketStream {
  import opened Basics
  import opened Stream

  // Which callback the event loop holds for the descriptor.
  datatype Handler = ConnectHandler | EventHandler

  /** `ep.isOpen` is "the descriptor is committed"; `ep.registered` is what the loop watches. */
  datatype SocketState = SocketState(ep: Endpoint, connected: bool, handler: Option<Handler>)

  // How the connect() system call goes; a failed socket(), option or connect() call is Failed.
  datatype ConnectResult = Immediate | InProgress | Failed

  function SockUpdateEvents(s: SocketState, events: Mask): SocketState {
    s.(ep := if s.connected then UpdateEvents(s.ep, events) else s.ep.(events := events))
  }

  function SockClosed(s: SocketState): SocketState {
    if !s.ep.isOpen then s else SocketState(Closed(s.ep), false, None)
  }

  function SockReceived(s: SocketState, reader: Option<Reader>): SocketState {
    var events := if reader.Some? then s.ep.events + {Read} else s.ep.events - {Read};
    var s' := if events != s.ep.events then SockUpdateEvents(s, events) else s;
    s'.(ep := s'.ep.(reader := reader))
  }

  function SockSent(s: SocketState, send: Send): SocketState {
    var events := if s.ep.queue == [] then s.ep.events + {Write} else s.ep.events;
    var s' := if events != s.ep.events then SockUpdateEvents(s, events) else s;
    s'.(ep := s'.ep.(queue := s.ep.queue + [send]))
  }

  function SockConnected(s: SocketState, result: ConnectResult): SocketState {
    var c := SockClosed(s);
    var ep := c.ep.(events := {Read});
    match result
    case Failed => c.(ep := ep)
    case Immediate => SocketState(ep.(isOpen := true, registered := Some({Read})), true, Some(EventHandler))
    case InProgress =>
      SocketState(ep.(isOpen := true, registered := Some({Read, Write})), c.connected, Some(ConnectHandler))
  }

  // open() of a descriptor accepted elsewhere; `healthy` is "no pending socket error".
  function SockOpened(s: SocketState, healthy: bool): SocketState {
    SocketState(SockClosed(s).ep.(events := {Read}, isOpen := true, registered := Some({Read})),
                healthy, Some(EventHandler))
  }

  // The two halves of onConnect: registering the mask anew, then raising the flag.
  function Reregistered(s: SocketState): SocketState {
    s.(ep := s.ep.(registered := Some(s.ep.events)), handler := Some(EventHandler))
  }

  function Flagged(s: SocketState): SocketState {
    s.(connected := true)
  }

  function SockReadHalf(s: SocketState, r: ReadResult): SocketState
    requires s.ep.reader.Some? && PossibleRead(s.ep.reader.value.sink, r)
  {
    var ep := ReadHalf(s.ep, r).ep;
    if ep.isOpen then s.(ep := ep) else SocketState(ep, false, None)
  }

  function SockWriteHalf(s: SocketState, size: int, errno: int): SocketState
    requires PossibleWrite(s.ep, size)
  {
    var ep := WriteHalf(s.ep, size, errno).0;
    if ep.isOpen then s.(ep := ep) else SocketState(ep, false, None)
  }
}
