/** The event loop as FileDescriptorIO and Socket see it. */
module EventLoops {
  import opened Stream

  /** The event loop's registrations: which events it watches each descriptor for. */
  class EventLoop {
    var registrations: map<int, Mask>

    constructor ()
      ensures registrations == map[]
    {
      registrations := map[];
    }

    method Add(fd: int, events: Mask)
      requires fd != -1 && fd !in registrations
      modifies this
      ensures registrations == old(registrations)[fd := events]
    {
      registrations := registrations[fd := events];
    }

    method Modify(fd: int, events: Mask)
      requires fd in registrations
      modifies this
      ensures registrations == old(registrations)[fd := events]
    {
      registrations := registrations[fd := events];
    }

    method Remove(fd: int)
      requires fd != -1 ==> fd in registrations
      modifies this
      ensures registrations == if fd == -1 then old(registrations) else old(registrations) - {fd}
    {
      if -1 == fd {
        return;
      }
      registrations := registrations - {fd};
    }
  }
}
