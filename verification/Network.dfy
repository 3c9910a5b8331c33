/**
 * Two endpoints and a network that may drop, duplicate and reorder segments: everything ever sent
 * stays available for delivery, any number of times or never.
 */
module Network {
  import opened Numbers
  import opened WrappingIntegers
  import opened Segments
  import opened Reassembly
  import opened Reception
  import opened Sending
  import opened SenderInvariant
  import opened ConnectionSteps
  import opened ConnectionInvariant
  import opened Links
  import opened FlowControl
  import Exactness

  /** `ab` and `ba` are all the segments that `a` and `b` have put on the network. */
  datatype World = World(a: Connection, b: Connection, ab: set<Segment>, ba: set<Segment>) {
    function Swap(): World {
      World(b, a, ba, ab)
    }
  }

  datatype Side = A | B

  datatype Event = Event(side: Side, op: Op)

  /**
   * A segment may be delivered if it is a copy of a sent one whose absolute position is less than
   * 2^31 away from the position the receiver compares it with, and so is its acknowledgment.
   * A reset carries no position.
   */
  ghost predicate Deliverable(from: Connection, to: Connection, seg: Segment) {
    seg.header.rst || (DataNear(from.sender.log, to.receiver.ackno, seg) && AckNear(from, to.sender.next, seg.header))
  }

  ghost predicate DataNear(log: seq<Sent>, checkpoint: nat, seg: Segment) {
    exists i :: 0 <= i < |log| && SameData(log[i].seg, seg) && Near(log[i].Start(), checkpoint)
  }

  ghost predicate AckNear(from: Connection, checkpoint: nat, h: TcpHeader) {
    h.ack ==> exists x :: x in from.acks && Wrap(x.ackno, from.receiver.isn) == h.ackno && x.win == h.win
                          && Near(x.ackno, checkpoint)
  }

  /** An operation at `a`: only what `b` has sent can arrive. */
  ghost predicate EnabledAtA(w: World, op: Op) {
    op.Arrive? ==> op.seg in w.ba && Deliverable(w.b, w.a, op.seg)
  }

  function ApplyAtA(w: World, op: Op): World {
    World(Step(w.a, op), w.b, if op.Collect? then w.ab + set seg | seg in w.a.segmentsOut else w.ab, w.ba)
  }

  ghost predicate Enabled(w: World, e: Event) {
    EnabledAtA(if e.side.A? then w else w.Swap(), e.op)
  }

  function Apply(w: World, e: Event): World {
    if e.side.A? then ApplyAtA(w, e.op) else ApplyAtA(w.Swap(), e.op).Swap()
  }

  ghost predicate Legal(w: World, events: seq<Event>)
    decreases |events|
  {
    events == [] || (Enabled(w, events[0]) && Legal(Apply(w, events[0]), events[1..]))
  }

  function Exec(w: World, events: seq<Event>): World
    decreases |events|
  {
    if events == [] then w else Exec(Apply(w, events[0]), events[1..])
  }

  /** Two fresh endpoints, of any configuration, and nothing on the network. */
  ghost predicate Initial(w: World) {
    && w.ab == {} && w.ba == {}
    && (exists t: u16, rc: nat, sc: nat, isn: u32 :: w.a == NewConnection(t, rc, sc, isn))
    && (exists t: u16, rc: nat, sc: nat, isn: u32 :: w.b == NewConnection(t, rc, sc, isn))
  }

  // ------------------------------------------------------------------
  // Invariant

  ghost predicate Channel(s: Sender, r: Receiver, acks: set<AckSent>) {
    Link(s, r, acks) && Flow(s, r, acks)
  }

  ghost predicate NetKnown(c: Connection, net: set<Segment>) {
    QueuesKnown(c) && (forall seg :: seg in net ==> Known(c, seg))
  }

  ghost predicate WorldInv(w: World) {
    && Channel(w.a.sender, w.b.receiver, w.b.acks)
    && Channel(w.b.sender, w.a.receiver, w.a.acks)
    && NetKnown(w.a, w.ab)
    && NetKnown(w.b, w.ba)
  }

  lemma InitialInv(w: World)
    requires Initial(w)
    ensures WorldInv(w)
  {
  }

  /** What a segment's acknowledgment does to the direction it acknowledges. */
  lemma AckKeepsChannel(w: World, seg: Segment)
    requires WorldInv(w) && Deliverable(w.b, w.a, seg)
    ensures Channel(AckedSender(w.a.sender, seg.header), w.b.receiver, w.b.acks)
  {
    hide Link;
    hide Flow;
    hide AckReceived;
    hide QueueLogged;
    hide Known;
    if seg.header.ack && !seg.header.rst {
      var x :| x in w.b.acks && Wrap(x.ackno, w.b.receiver.isn) == seg.header.ackno && x.win == seg.header.win
               && Near(x.ackno, w.a.sender.next);
      LinkReceiverInv(w.a.sender, w.b.receiver, w.b.acks);
      LinkAck(w.a.sender, w.b.receiver, w.b.acks, x, seg.header);
      FlowAck(w.a.sender, w.b.receiver, w.b.acks, x, seg.header);
    }
  }

  lemma ChannelEvolves(s: Sender, s': Sender, r: Receiver, acks: set<AckSent>)
    requires Channel(s, r, acks) && SenderInv(s') && Evolves(s, s')
    ensures Channel(s', r, acks)
  {
    hide Link;
    hide Flow;
    hide SenderInv;
    hide Evolves;
    LinkEvolves(s, s', r, acks);
    FlowEvolves(s, s', r, acks);
  }

  lemma LinkSenderInv(s: Sender, r: Receiver, acks: set<AckSent>)
    requires Link(s, r, acks)
    ensures SenderInv(s)
  {
  }

  /** An operation at `a` keeps the direction in which `a` sends. */
  lemma SendingSide(w: World, op: Op)
    requires WorldInv(w) && EnabledAtA(w, op)
    ensures Channel(Step(w.a, op).sender, w.b.receiver, w.b.acks)
  {
    hide Link;
    hide Flow;
    hide SenderInv;
    hide Evolves;
    hide Step;
    hide AckedSender;
    hide Deliverable;
    hide NetKnown;
    LinkSenderInv(w.a.sender, w.b.receiver, w.b.acks);
    StepSender(w.a, op);
    if op.Arrive? {
      AckKeepsChannel(w, op.seg);
      ChannelEvolves(AckedSender(w.a.sender, op.seg.header), Step(w.a, op).sender, w.b.receiver, w.b.acks);
    } else {
      ChannelEvolves(w.a.sender, Step(w.a, op).sender, w.b.receiver, w.b.acks);
    }
  }

  lemma EntryIsGood(s: Sender, r: Receiver, acks: set<AckSent>, i: nat)
    requires Link(s, r, acks) && i < |s.log|
    ensures GoodEntry(s, s.log[i])
  {
    hide GoodEntry;
    hide NumberInv;
    hide QueueInv;
    hide Safe;
  }

  lemma DataKeepsChannel(w: World, seg: Segment)
    requires WorldInv(w) && Deliverable(w.b, w.a, seg) && !seg.header.rst
    ensures Channel(w.b.sender, Receive(w.a.receiver, seg), w.a.acks)
  {
    hide Link;
    hide Flow;
    hide Receive;
    hide GoodEntry;
    hide NetKnown;
    var s := w.b.sender;
    var i :| 0 <= i < |s.log| && SameData(s.log[i].seg, seg) && Near(s.log[i].Start(), w.a.receiver.ackno);
    EntryIsGood(s, w.a.receiver, w.a.acks, i);
    LinkReceive(s, w.a.receiver, w.a.acks, s.log[i], seg);
    FlowReceive(s, w.a.receiver, w.a.acks, s.log[i], seg);
  }

  /** The error flag of the inbound stream plays no part. */
  lemma ChannelSame(s: Sender, r: Receiver, r': Receiver, acks: set<AckSent>)
    requires Channel(s, r, acks) && SameReception(r, r')
    ensures Channel(s, r', acks)
  {
    hide SenderInv;
    hide LogInside;
    hide Sorted;
    hide StartAfter;
    InsideStays(s.log, r, r');
  }

  lemma ChannelMoreAcks(s: Sender, r: Receiver, acks: set<AckSent>, acks': set<AckSent>)
    requires Channel(s, r, acks) && acks' <= acks + {CurrentAck(r)}
    ensures Channel(s, r, acks')
  {
    hide Link;
    hide Flow;
    LinkMoreAcks(s, r, acks, acks');
    FlowMoreAcks(s, r, acks, acks');
  }

  lemma ChannelRead(s: Sender, r: Receiver, acks: set<AckSent>, n: nat)
    requires Channel(s, r, acks)
    ensures Channel(s, ReadOut(r, n), acks)
  {
    hide Link;
    hide Flow;
    LinkRead(s, r, acks, n);
    FlowRead(s, r, acks, n);
  }

  /** An operation at `a` keeps the direction in which `a` receives. */
  lemma ReceivingSide(w: World, op: Op)
    requires WorldInv(w) && EnabledAtA(w, op)
    ensures Channel(w.b.sender, Step(w.a, op).receiver, Step(w.a, op).acks)
  {
    hide Channel;
    hide Step;
    hide Receive;
    hide ReadOut;
    hide SameReception;
    hide Deliverable;
    hide NetKnown;
    var s, a' := w.b.sender, Step(w.a, op);
    var r := NextReceiver(w.a.receiver, op);
    if op.Arrive? && !op.seg.header.rst {
      DataKeepsChannel(w, op.seg);
    } else if op.Read? {
      ChannelRead(s, w.a.receiver, w.a.acks, op.n);
    }
    assert Channel(s, r, w.a.acks);
    StepReceiver(w.a, op);
    ChannelSame(s, r, a'.receiver, w.a.acks);
    ChannelMoreAcks(s, a'.receiver, w.a.acks, a'.acks);
  }

  /** One initial sequence number per peer: what arrives never changes it. */
  lemma IsnIsKept(w: World, seg: Segment)
    requires WorldInv(w) && Deliverable(w.b, w.a, seg) && !seg.header.rst
    ensures w.a.acks == {} || KeepsIsn(w.a.receiver, Receive(w.a.receiver, seg))
  {
    hide Flow;
    hide SenderInv;
    hide ReceiverInv;
    hide Safe;
    hide Receive;
    hide Known;
    hide QueueLogged;
    hide Deliverable;
    DataKeepsChannel(w, seg);
    SynNeedsSyn(w.a.receiver, seg);
  }

  lemma LogGrows(w: World, op: Op)
    requires SenderInv(w.a.sender)
    ensures w.a.sender.log <= Step(w.a, op).sender.log
  {
    hide SenderInv;
    hide Step;
    hide Unwrap;
    StepSender(w.a, op);
  }

  lemma QueuesSide(w: World, op: Op)
    requires WorldInv(w) && EnabledAtA(w, op)
    ensures QueuesKnown(Step(w.a, op))
    ensures w.a.sender.log <= Step(w.a, op).sender.log
    ensures w.a.acks <= Step(w.a, op).acks
    ensures w.a.acks == {} || Step(w.a, op).receiver.isn == w.a.receiver.isn
  {
    hide Link;
    hide Flow;
    hide Step;
    hide SenderInv;
    hide Receive;
    hide Known;
    hide Deliverable;
    LinkSenderInv(w.a.sender, w.b.receiver, w.b.acks);
    if op.Arrive? && !op.seg.header.rst {
      IsnIsKept(w, op.seg);
    }
    StepKnown(w.a, op);
    LogGrows(w, op);
    StepReceiver(w.a, op);
  }

  lemma NetSide(w: World, op: Op)
    requires WorldInv(w) && EnabledAtA(w, op)
    ensures NetKnown(Step(w.a, op), ApplyAtA(w, op).ab)
  {
    hide Channel;
    hide Step;
    hide Deliverable;
    hide Known;
    QueuesSide(w, op);
    var a' := Step(w.a, op);
    forall seg | seg in ApplyAtA(w, op).ab ensures Known(a', seg) {
      assert Known(w.a, seg);
      KnownStays(w.a, a', seg);
    }
  }

  lemma StepKeepsInv(w: World, op: Op)
    requires WorldInv(w) && EnabledAtA(w, op)
    ensures WorldInv(ApplyAtA(w, op))
  {
    hide Channel;
    hide NetKnown;
    hide Step;
    hide EnabledAtA;
    SendingSide(w, op);
    ReceivingSide(w, op);
    NetSide(w, op);
  }

  lemma ApplyKeepsInv(w: World, e: Event)
    requires WorldInv(w) && Enabled(w, e)
    ensures WorldInv(Apply(w, e))
  {
    hide Channel;
    hide NetKnown;
    hide ApplyAtA;
    hide EnabledAtA;
    StepKeepsInv(if e.side.A? then w else w.Swap(), e.op);
  }

  lemma {:induction false} ExecKeepsInv(w: World, events: seq<Event>)
    requires WorldInv(w) && Legal(w, events)
    ensures WorldInv(Exec(w, events))
    decreases |events|
  {
    hide WorldInv;
    hide Apply;
    hide Enabled;
    if events == [] {
    } else {
      ApplyKeepsInv(w, events[0]);
      ExecKeepsInv(Apply(w, events[0]), events[1..]);
    }
  }

  // ------------------------------------------------------------------
  // What holds in every reachable state, for the direction from `a` to `b`; `ReachableSwap` gives the other one

  ghost predicate Reachable(w: World) {
    exists w0: World, events: seq<Event> :: Initial(w0) && Legal(w0, events) && w == Exec(w0, events)
  }

  lemma ReachableInv(w: World)
    requires Reachable(w)
    ensures WorldInv(w) && WorldInv(w.Swap())
  {
    hide WorldInv;
    hide Legal;
    var w0: World, events: seq<Event> :| Initial(w0) && Legal(w0, events) && w == Exec(w0, events);
    InitialInv(w0);
    ExecKeepsInv(w0, events);
    SwapInv(w);
  }

  /** A legal step leads from a reachable state to a reachable state. */
  lemma ReachableStep(w: World, e: Event)
    requires Reachable(w) && Enabled(w, e)
    ensures Reachable(Apply(w, e))
  {
    hide Legal;
    hide Exec;
    hide Enabled;
    hide Apply;
    var w0: World, events: seq<Event> :| Initial(w0) && Legal(w0, events) && w == Exec(w0, events);
    ExecSnoc(w0, events, e);
    assert Initial(w0) && Legal(w0, events + [e]) && Apply(w, e) == Exec(w0, events + [e]);
  }

  lemma {:induction false} ExecSnoc(w: World, events: seq<Event>, e: Event)
    ensures Exec(w, events + [e]) == Apply(Exec(w, events), e)
    ensures Legal(w, events + [e]) <==> Legal(w, events) && Enabled(Exec(w, events), e)
    decreases |events|
  {
    hide Apply;
    hide Enabled;
    if events == [] {
      assert events + [e] == [e] && [e][1..] == [];
    } else {
      assert (events + [e])[1..] == events[1..] + [e];
      ExecSnoc(Apply(w, events[0]), events[1..], e);
    }
  }

  function Flip(e: Event): Event {
    Event(if e.side.A? then B else A, e.op)
  }

  function FlipAll(events: seq<Event>): seq<Event> {
    if events == [] then [] else [Flip(events[0])] + FlipAll(events[1..])
  }

  lemma {:induction false} SwapExec(w: World, events: seq<Event>)
    ensures Exec(w.Swap(), FlipAll(events)) == Exec(w, events).Swap()
    ensures Legal(w.Swap(), FlipAll(events)) <==> Legal(w, events)
    decreases |events|
  {
    hide ApplyAtA;
    hide EnabledAtA;
    if events == [] {
    } else {
      assert FlipAll(events)[1..] == FlipAll(events[1..]);
      assert Apply(w.Swap(), Flip(events[0])) == Apply(w, events[0]).Swap();
      SwapExec(Apply(w, events[0]), events[1..]);
    }
  }

  /** The two sides are alike: whatever holds of the direction from `a` to `b` holds of the other one. */
  lemma ReachableSwap(w: World)
    requires Reachable(w)
    ensures Reachable(w.Swap())
  {
    hide Legal;
    hide Exec;
    var w0: World, events: seq<Event> :| Initial(w0) && Legal(w0, events) && w == Exec(w0, events);
    SwapExec(w0, events);
    assert Initial(w0.Swap()) && Legal(w0.Swap(), FlipAll(events)) && w.Swap() == Exec(w0.Swap(), FlipAll(events));
  }

  lemma SwapInv(w: World)
    requires WorldInv(w)
    ensures WorldInv(w.Swap())
  {
  }

  /** End-to-end safety: what one side reads is always a prefix of what the other side wrote. */
  lemma EndToEndSafety(w: World)
    requires Reachable(w)
    ensures w.b.Inbound().taken <= w.b.Inbound().Written() <= w.a.sender.stream.taken <= w.a.Outbound().Written()
    ensures w.a.Inbound().taken <= w.a.Inbound().Written() <= w.b.sender.stream.taken <= w.b.Outbound().Written()
  {
    hide SenderInv;
    hide ReceiverInv;
    hide Flow;
    hide NetKnown;
    ReachableInv(w);
    assert Safe(w.b.receiver.reassembler, w.a.sender.stream.taken);
    assert Safe(w.a.receiver.reassembler, w.b.sender.stream.taken);
  }

  /**
   * Acknowledged means delivered: no acknowledgment is ahead of the receiver, the receiver is never
   * ahead of the sender, and a sent FIN with nothing in flight means that the peer's inbound stream
   * has ended and holds every byte taken from the outbound stream. That is every byte written exactly
   * if nothing is left in the outbound stream.
   */
  lemma AckedMeansDeliveredAlways(w: World)
    requires Reachable(w)
    ensures w.a.sender.maxAck <= w.b.receiver.ackno <= w.a.sender.next
    ensures w.a.sender.finSent && w.a.sender.inFlight == 0 ==>
              && w.b.Inbound().inputEnded && w.b.Inbound().Written() == w.a.sender.stream.taken
              && (w.b.Inbound().Written() == w.a.Outbound().Written() <==> w.a.Outbound().buffer == [])
  {
    hide Link;
    hide Flow;
    hide NetKnown;
    ReachableInv(w);
    AcknoBounded(w.a.sender, w.b.receiver, w.b.acks);
    if w.a.sender.finSent && w.a.sender.inFlight == 0 {
      AckedMeansDelivered(w.a.sender, w.b.receiver, w.b.acks);
    }
  }

  /** Flow control: the receiver never holds more than its capacity, waiting and unread bytes together. */
  lemma MemoryIsBounded(w: World)
    requires Reachable(w)
    ensures TotalSize(w.b.receiver.reassembler.chunks) + |w.b.Inbound().buffer| <= w.b.Inbound().capacity
  {
    hide SenderInv;
    hide NetKnown;
    hide LogInside;
    hide Sorted;
    hide StartAfter;
    hide EndWithin;
    ReachableInv(w);
    Exactness.FitsCapacity(w.b.receiver.reassembler);
  }

  /** Every byte of a segment that the receiver looks at is kept, whatever else is waiting. */
  lemma NothingIsDropped(w: World, k: nat, seg: Segment, i: nat)
    requires Reachable(w) && k < |w.a.sender.log| && SameData(w.a.sender.log[k].seg, seg)
    requires Near(w.a.sender.log[k].Start(), w.b.receiver.ackno)
    ensures var start, r := w.a.sender.log[k].Start(), w.b.receiver;
      var index := start - 1 + Bit(seg.header.syn);
      Exactness.Holds(Receive(r, seg).reassembler, i) <==>
        || Exactness.Holds(r.reassembler, i)
        || ((r.synArrived || seg.header.syn) && 0 <= start && InReach(r, start, seg.header.syn)
            && index <= i < index + |seg.payload|)
  {
    hide Link;
    hide Flow;
    hide NetKnown;
    hide Receive;
    ReachableInv(w);
    EntryIsGood(w.a.sender, w.b.receiver, w.b.acks, k);
    ReceivedInWindow(w.a.sender, w.b.receiver, w.b.acks, w.a.sender.log[k], seg, i);
  }

  /**
   * Nothing that starts inside the window is dropped: the SYN, if there is any room at all, and every
   * segment that starts before the right edge of the window, whether it connects or not.
   */
  lemma NothingInWindowIsDropped(w: World, k: nat, seg: Segment, i: nat)
    requires Reachable(w) && k < |w.a.sender.log| && SameData(w.a.sender.log[k].seg, seg)
    requires Near(w.a.sender.log[k].Start(), w.b.receiver.ackno)
    requires var start, r := w.a.sender.log[k].Start(), w.b.receiver;
      if r.ackno > 0 then (start > 0 || seg.header.syn) && start < RightEdge(r)
      else seg.header.syn && r.WindowSize() > 0
    ensures var index := w.a.sender.log[k].Start() - 1 + Bit(seg.header.syn);
      Exactness.Holds(Receive(w.b.receiver, seg).reassembler, i) <==>
        Exactness.Holds(w.b.receiver.reassembler, i) || index <= i < index + |seg.payload|
  {
    hide Reachable;
    hide Receive;
    hide Exactness.Holds;
    hide Flow;
    hide NetKnown;
    hide SenderInv;
    hide Safe;
    hide Sorted;
    hide StartAfter;
    NothingIsDropped(w, k, seg, i);
    ReachableInv(w);
    assert Link(w.a.sender, w.b.receiver, w.b.acks);
    EntryIsGood(w.a.sender, w.b.receiver, w.b.acks, k);
  }

  /** While fewer than 2^31 numbers have been used on either side, the network may deliver anything it holds. */
  lemma ShortRunsDeliverEverything(w: World, seg: Segment)
    requires Reachable(w) && seg in w.ab
    requires w.a.sender.next < TWO31 && w.b.sender.next < TWO31
    ensures Deliverable(w.a, w.b, seg)
  {
    hide Flow;
    hide SenderInv;
    hide Safe;
    hide ReceiverInv;
    hide QueuesKnown;
    hide CarriesStream;
    ReachableInv(w);
    AcknoBounded(w.a.sender, w.b.receiver, w.b.acks);
    AcknoBounded(w.b.sender, w.a.receiver, w.a.acks);
    assert Known(w.a, seg);
    var i :| 0 <= i < |w.a.sender.log| && SameData(w.a.sender.log[i].seg, seg);
    EntryIsGood(w.a.sender, w.b.receiver, w.b.acks, i);
    assert Near(w.a.sender.log[i].Start(), w.b.receiver.ackno);
  }
}
