/** One endpoint's write side feeding another's read side through a FIFO byte channel. */
module EndToEnd {
  import opened Basics
  import opened Stream
  import opened StreamHistory
  import opened StreamRuns

  /** `channel` holds the bytes the sender's kernel accepted and the receiver has not read. */
  datatype Link = Link(sender: Machine, channel: seq<byte>, receiver: Machine)

  datatype LinkStep = OfSender(step: Step) | OfReceiver(step: Step)

  ghost function Connected(): Link {
    Link(Next(INITIAL, Open), [], Next(INITIAL, Open))
  }

  /** Either side takes any step of its own machine except opening anew; a read returns
      some bytes from the front of the channel. */
  ghost predicate LinkEnabled(l: Link, s: LinkStep) {
    && !s.step.Open?
    && match s
       case OfSender(step) => Enabled(l.sender, step)
       case OfReceiver(step) =>
         && Enabled(l.receiver, step)
         && (step.HandleRead? && step.result.Got? ==> step.result.bytes <= l.channel)
  }

  // The bytes a step hands to the kernel, and the bytes it takes from it.
  ghost function Accepted(m: Machine, step: Step): seq<byte>
    requires Enabled(m, step)
  {
    if step.HandleWrite? && step.size >= 0 then m.ep.queue[0].Payload()[..step.size] else []
  }

  ghost function Taken(step: Step): seq<byte> {
    if step.HandleRead? && step.result.Got? then step.result.bytes else []
  }

  ghost function LinkNext(l: Link, s: LinkStep): Link
    requires LinkEnabled(l, s)
  {
    match s
    case OfSender(step) => Link(Next(l.sender, step), l.channel + Accepted(l.sender, step), l.receiver)
    case OfReceiver(step) => Link(l.sender, l.channel[|Taken(step)|..], Next(l.receiver, step))
  }

  ghost predicate LinkRun(l: Link, steps: seq<LinkStep>)
    decreases |steps|
  {
    steps == [] || (LinkEnabled(l, steps[0]) && LinkRun(LinkNext(l, steps[0]), steps[1..]))
  }

  ghost function LinkAfter(l: Link, steps: seq<LinkStep>): Link
    requires LinkRun(l, steps)
    decreases |steps|
  {
    if steps == [] then l else LinkAfter(LinkNext(l, steps[0]), steps[1..])
  }

  ghost predicate LinkInv(l: Link) {
    Inv(l.sender) && Inv(l.receiver) && ChannelInv(l.sender.log.sent, l.channel, l.receiver.log.received)
  }

  ghost predicate ChannelInv(sent: seq<byte>, channel: seq<byte>, received: seq<byte>) {
    sent == received + channel
  }

  // How the two byte logs move: only a successful write extends `sent` ...
  lemma SentMoves(m: Machine, step: Step)
    requires Inv(m) && Enabled(m, step) && !step.Open?
    ensures Next(m, step).log.sent == m.log.sent + Accepted(m, step)
  {
    if step.HandleWrite? && step.size >= 0 {
      var front := m.ep.queue[0];
      assert front.Payload()[..step.size] == front.data[front.progress..front.progress + step.size];
      WriteKeepsMask(m.ep, step.size, step.errno);
    }
  }

  // ... and only a read of some bytes extends `received`.
  lemma ReceivedMoves(m: Machine, step: Step)
    requires Inv(m) && Enabled(m, step) && !step.Open?
    ensures Next(m, step).log.received == m.log.received + Taken(step)
  {
    if step.HandleRead? {
      ReadExtends(m.ep, step.result);
    }
  }

  lemma ChannelGrows(sent: seq<byte>, channel: seq<byte>, received: seq<byte>, more: seq<byte>)
    requires ChannelInv(sent, channel, received)
    ensures ChannelInv(sent + more, channel + more, received)
  {
    assert (received + channel) + more == received + (channel + more);
  }

  lemma ChannelShrinks(sent: seq<byte>, channel: seq<byte>, received: seq<byte>, bytes: seq<byte>)
    requires ChannelInv(sent, channel, received) && bytes <= channel
    ensures ChannelInv(sent, channel[|bytes|..], received + bytes)
  {
    assert channel == bytes + channel[|bytes|..];
  }

  lemma LinkStepKeepsInv(l: Link, s: LinkStep)
    requires LinkInv(l) && LinkEnabled(l, s)
    ensures LinkInv(LinkNext(l, s))
  {
    match s
    case OfSender(step) =>
      StepKeepsInv(l.sender, step);
      SentMoves(l.sender, step);
      ChannelGrows(l.sender.log.sent, l.channel, l.receiver.log.received, Accepted(l.sender, step));
    case OfReceiver(step) =>
      StepKeepsInv(l.receiver, step);
      ReceivedMoves(l.receiver, step);
      ChannelShrinks(l.sender.log.sent, l.channel, l.receiver.log.received, Taken(step));
  }

  lemma {:induction false} LinkRunKeepsInv(l: Link, steps: seq<LinkStep>)
    requires LinkInv(l) && LinkRun(l, steps)
    ensures LinkInv(LinkAfter(l, steps))
    decreases |steps|
  {
    if steps != [] {
      LinkStepKeepsInv(l, steps[0]);
      LinkRunKeepsInv(LinkNext(l, steps[0]), steps[1..]);
    }
  }

  lemma LinkReachable(steps: seq<LinkStep>)
    requires LinkRun(Connected(), steps)
    ensures LinkInv(LinkAfter(Connected(), steps))
  {
    ReachableInv([]);
    StepKeepsInv(INITIAL, Open);
    LinkRunKeepsInv(Connected(), steps);
  }

  /** The sources handed to write() on the sending side, in order. */
  ghost function LinkWrites(steps: seq<LinkStep>): seq<Send> {
    if steps == [] then [] else Written(steps[0]) + LinkWrites(steps[1..])
  }

  ghost function Written(s: LinkStep): seq<Send> {
    if s.OfSender? && s.step.WriteCall? then [s.step.send] else []
  }

  lemma WrittenMoves(m: Machine, step: Step)
    requires Enabled(m, step) && !step.Open?
    ensures Next(m, step).log.written == m.log.written + Written(OfSender(step))
  {
    hide ReadHalf, WriteHalf, WrittenTags, Gained, PossibleRead, PossibleWrite;
  }

  lemma {:induction false} WrittenIsLinkWrites(l: Link, steps: seq<LinkStep>)
    requires LinkRun(l, steps)
    ensures LinkAfter(l, steps).sender.log.written == l.sender.log.written + LinkWrites(steps)
    decreases |steps|
  {
    if steps == [] {
      assert l.sender.log.written + [] == l.sender.log.written;
    } else {
      var s := steps[0];
      if s.OfSender? {
        WrittenMoves(l.sender, s.step);
      } else {
        assert l.sender.log.written + Written(s) == l.sender.log.written;
      }
      hide Enabled, Next, Written;
      WrittenIsLinkWrites(LinkNext(l, s), steps[1..]);
      Associative(l.sender.log.written, Written(s), LinkWrites(steps[1..]));
    }
  }

  /** While both ends are open: the bytes in the receiver's sinks in order, then those in
      flight, then those still unsent, are all sources handed to write(), in order. */
  lemma EndToEndConservation(steps: seq<LinkStep>)
    requires LinkRun(Connected(), steps)
    requires LinkAfter(Connected(), steps).sender.ep.isOpen && LinkAfter(Connected(), steps).receiver.ep.isOpen
    ensures var Link(a, channel, b) := LinkAfter(Connected(), steps);
      && AllValid(LinkWrites(steps)) && AllValid(a.ep.queue)
      && Concat(b.log.retired) + Gained(b.ep.reader, b.log) + channel + Unsent(a.ep.queue)
         == Enqueued(LinkWrites(steps))
  {
    hide LinkAfter, LinkRun, LinkWrites, LinkInv, Connected, Concat, Unsent, Enqueued, Gained, AllValid;
    LinkReachable(steps);
    AllWrites(steps);
    var Link(a, channel, b) := LinkAfter(Connected(), steps);
    Conservation(a, channel, b);
  }

  lemma AllWrites(steps: seq<LinkStep>)
    requires LinkRun(Connected(), steps)
    ensures LinkAfter(Connected(), steps).sender.log.written == LinkWrites(steps)
  {
    WrittenIsLinkWrites(Connected(), steps);
    assert [] + LinkWrites(steps) == LinkWrites(steps);
  }

  lemma Conservation(a: Machine, channel: seq<byte>, b: Machine)
    requires LinkInv(Link(a, channel, b)) && a.ep.isOpen && b.ep.isOpen
    ensures AllValid(a.log.written) && AllValid(a.ep.queue)
    ensures Concat(b.log.retired) + Gained(b.ep.reader, b.log) + channel + Unsent(a.ep.queue) == Enqueued(a.log.written)
  {
    hide Concat, Unsent, Enqueued, Gained, Tags;
    var held := Concat(b.log.retired) + Gained(b.ep.reader, b.log);
    assert held == b.log.received + [] == b.log.received;
    assert a.log.sent == held + channel;
  }

  /** Even after either end closes, what was received is a prefix of what was written. */
  lemma EndToEndPrefix(steps: seq<LinkStep>)
    requires LinkRun(Connected(), steps)
    ensures AllValid(LinkWrites(steps))
    ensures LinkAfter(Connected(), steps).receiver.log.received <= Enqueued(LinkWrites(steps))
  {
    LinkReachable(steps);
    AllWrites(steps);
    var a := LinkAfter(Connected(), steps).sender;
    if a.ep.isOpen {
      SenderInvGivesPrefix(a.ep.queue, a.log);
    }
    hide LinkAfter, LinkRun, LinkWrites, SenderInv, ReaderInv, Enqueued;
  }
}
