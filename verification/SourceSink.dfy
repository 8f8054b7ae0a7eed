/** Source and Sink: the progress cursor bytes are sent from, and the bounded or minimal
    container bytes are received into. */
module SourceSink {
  import opened Basics
  import opened Stream

  class Source {
    const data: seq<byte>
    var progress: nat

    ghost predicate Valid()
      reads this
    {
      progress <= |data|
    }

    constructor (data: seq<byte>)
      ensures this.data == data && progress == 0 && Valid()
    {
      this.data := data;
      progress := 0;
    }

    ghost function Rest(): (rest: seq<byte>)
      requires Valid()
      reads this
    {
      data[progress..]
    }

    method Available() returns (size: nat)
      requires Valid()
      ensures size == |Rest()|
    {
      size := |data| - progress;
    }

    method Empty() returns (empty: bool)
      requires Valid()
      ensures empty <==> Rest() == []
    {
      empty := progress == |data|;
    }

    method Peek(size: nat) returns (bytes: seq<byte>)
      requires Valid() && size <= |Rest()|
      ensures bytes == Rest()[..size]
    {
      bytes := data[progress..progress + size];
    }

    method Consume(size: nat) returns (bytes: seq<byte>)
      requires Valid() && size <= |Rest()|
      modifies this
      ensures Valid() && bytes + Rest() == old(Rest()) && |bytes| == size
      ensures progress == old(progress) + size
    {
      bytes := Peek(size);
      progress := progress + size;
    }
  }

  // An entry of the send queue.
  datatype SendTuple = SendTuple(source: Source, callback: Option<Tag>)

  ghost function Sources(queue: seq<SendTuple>): set<Source> {
    set t | t in queue :: t.source
  }

  /** Queued sources are distinct objects. */
  ghost predicate ValidQueue(queue: seq<SendTuple>)
    reads Sources(queue)
  {
    && (forall i | 0 <= i < |queue| :: queue[i].source.Valid())
    && (forall i, j | 0 <= i < j < |queue| :: queue[i].source != queue[j].source)
  }

  ghost function QueueView(queue: seq<SendTuple>): (view: seq<Send>)
    reads Sources(queue)
  {
    seq(|queue|, i requires 0 <= i < |queue| reads Sources(queue) =>
      Send(queue[i].source.data, queue[i].source.progress, queue[i].callback))
  }

  class Sink {
    const maximum: nat
    var data: seq<byte>
    var backed: bool

    function View(): SinkView
      reads this
    {
      SinkView(maximum, data, backed)
    }

    constructor (maximum: nat, data: seq<byte>, backed: bool)
      ensures View() == SinkView(maximum, data, backed)
    {
      this.maximum, this.data, this.backed := maximum, data, backed;
    }

    method Full() returns (full: bool)
      ensures full <==> maximum == 0 || |data| == maximum
    {
      full := MINIMAL_CAPACITY == maximum || |data| == maximum;
    }

    method Headroom() returns (headroom: nat)
      requires maximum != MINIMAL_CAPACITY && |data| <= maximum
      ensures |data| + headroom == maximum
    {
      headroom := maximum - |data|;
    }

    method HeadroomWithin(limit: nat) returns (headroom: nat)
      requires maximum == MINIMAL_CAPACITY || |data| <= maximum
      ensures headroom == View().Headroom(limit)
      ensures maximum == 0 ==> headroom == |data| + limit
      ensures maximum != 0 ==> headroom <= limit && |data| + headroom <= maximum
      ensures maximum != 0 ==> headroom == limit || |data| + headroom == maximum
    {
      if MINIMAL_CAPACITY == maximum {
        headroom := |data| + limit;
      } else {
        headroom := Headroom();
        headroom := Min(headroom, limit);
      }
    }

    // The container's resize(); `filler` is what a grown container holds past its old size.
    method Resize(size: nat, filler: seq<byte>) returns (found: bool)
      requires size > |data| ==> |filler| == size - |data|
      modifies this
      ensures data == if size <= |old(data)| then old(data)[..size] else old(data) + filler
      ensures backed == (old(backed) || size > 0) && found == backed
    {
      data := if size <= |data| then data[..size] else data + filler;
      backed := backed || size > 0;
      found := backed;
    }

    /** Grows the sink by |filler| bytes; `found` is false when produce() returns null. */
    method Produce(filler: seq<byte>) returns (found: bool)
      requires maximum == MINIMAL_CAPACITY || |data| + |filler| <= maximum
      modifies this
      ensures View() == old(View()).Extended(filler) && found == backed
      ensures data == old(data) + filler && backed == (old(backed) || data != [])
    {
      found := Resize(|data| + |filler|, filler);
    }

    // Writing `bytes` through the pointer produce() returned.
    method Poke(at: nat, bytes: seq<byte>)
      requires at + |bytes| <= |data|
      modifies this
      ensures data == old(data)[..at] + bytes + old(data)[at + |bytes|..] && backed == old(backed)
    {
      data := data[..at] + bytes + data[at + |bytes|..];
    }

    // What a read leaves behind: the bytes at the extension, and the rest of it resized away.
    method Keep(at: nat, bytes: seq<byte>)
      requires at + |bytes| <= |data| && backed
      modifies this
      ensures data == old(data)[..at] + bytes && backed
    {
      Poke(at, bytes);
      var _ := Resize(at + |bytes|, []);
    }

    /** produce(data, size): appends `bytes`. */
    method ProduceBytes(bytes: seq<byte>) returns (size: nat)
      requires maximum == MINIMAL_CAPACITY || |data| + |bytes| <= maximum
      modifies this
      ensures data == old(data) + bytes
      ensures size == if backed then |data| else 0
    {
      var before := |data|;
      var found := Produce(bytes);
      if !found {
        return 0;
      }
      size := |data|;
    }
  }
}
