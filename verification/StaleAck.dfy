/** An old acknowledgment can make an endpoint close without ever having sent its FIN. */
module StaleAck {
  import opened Numbers
  import opened WrappingIntegers
  import opened ByteQueues
  import opened Segments
  import opened Reassembly
  import opened Reception
  import opened Sending
  import opened SenderInvariant
  import opened ConnectionSteps
  import opened ConnectionInvariant
  import SenderRuns
  import opened CleanClose

  /** Ending the input sends the FIN in the same call if and only if a number is left for it. */
  lemma EndInputSendsFin(c: Connection)
    requires SenderInv(c.sender) && !c.sender.finSent
    ensures EndInputStream(c).sender.finSent <==>
              c.sender.next + Bit(c.sender.next == 0) + |c.sender.stream.buffer| < Limit(c.sender)
  {
    hide LogInv;
    hide QueueInv;
    hide Tiles;
    hide Payloads;
    hide StampAll;
    var s := EndStream(c.sender);
    WriteKeepsInv(c.sender, []);
    if s.next < Limit(s) {
      SenderRuns.FillSendsAllThatFits(s, Limit(s));
    }
  }

  // ------------------------------------------------------------------
  // From an exhausted endpoint: closing without a FIN

  lemma EndInputStrands(c: Connection)
    requires Exhausted(c.sender)
    ensures var e := EndInputStream(c);
      e == c.(segmentsOut := e.segmentsOut, acks := e.acks, sender := EndStream(c.sender).(segmentsOut := []))
      && Stranded(e.sender)
  {
    hide StampAll;
  }

  /** Time alone closes a stranded endpoint exactly if the inbound stream is finished and lingering is over. */
  lemma StrandedTick(c: Connection, ms: nat)
    requires SenderInv(c.sender) && Stranded(c.sender) && !c.Outbound().error
    ensures var c' := Tick(c, ms);
      && !c'.Outbound().error && !c'.sender.finSent
      && (c'.active <==> c.active && !(c.Inbound().Eof() && (!c.linger || c.lingerTime + ms >= c.rtTimeout * 10)))
  {
    hide SenderInv;
    hide StampAll;
    SenderRuns.NoFlightMeansIdle(c.sender);
  }

  /**
   * From an exhausted endpoint, passive or lingering, ending the input and letting time pass closes
   * it without an error and without a FIN exactly if the inbound stream is finished and lingering is
   * not needed or over.
   */
  lemma ExhaustedClosesWithoutFin(c: Connection, ms: nat)
    requires SenderInv(c.sender) && Exhausted(c.sender) && c.active && !c.Outbound().error
    ensures var c' := Tick(EndInputStream(c), ms);
      && !c'.Outbound().error && !c'.sender.finSent
      && (!c'.active <==> c.Inbound().Eof() && (!c.linger || c.lingerTime + ms >= c.rtTimeout * 10))
  {
    hide SenderInv;
    hide Tick;
    hide EndInputStream;
    hide Stranded;
    hide Exhausted;
    EndInputStrands(c);
    StepSender(c, EndInput);
    StrandedTick(EndInputStream(c), ms);
  }

  /** The peer's FIN at the current acknowledgment, or its SYN and FIN if nothing has arrived; without an ACK. */
  function PeerFin(r: Receiver): Segment {
    if r.ackno == 0 then Segment(DEFAULT_HEADER.(syn := true, fin := true), [])
    else Segment(DEFAULT_HEADER.(seqno := Wrap(r.ackno, r.isn), fin := true), [])
  }

  lemma PeerFinFinishes(r: Receiver)
    requires ReceiverInv(r) && !r.Ended() && r.reassembler.output.buffer == [] && r.reassembler.output.capacity > 0
    ensures var r' := Receive(r, PeerFin(r)); r'.synArrived && r'.reassembler.output.Eof()
  {
    hide Unwrap;
    hide Wrap;
    hide Sorted;
    hide StartAfter;
    hide Place;
    UnwrapAtCheckpoint(if r.ackno == 0 then 0 else r.ackno, r.isn);
    assert Unwrap(0, 0, 0) == 0 by { UnwrapAtCheckpoint(0, 0); WrapZero(); }
  }

  lemma WrapZero()
    ensures Wrap(0, 0) == 0
  {
  }

  /** It carries no acknowledgment, and so the FIN stays behind. */
  lemma PeerFinArrives(c: Connection)
    requires SenderInv(c.sender) && Stranded(c.sender) && !c.Outbound().error && c.sender.next > 0
    requires var r' := Receive(c.receiver, PeerFin(c.receiver)); r'.synArrived && r'.reassembler.output.Eof()
    ensures var c' := SegmentArrives(c, PeerFin(c.receiver));
      && SenderInv(c'.sender) && Stranded(c'.sender) && !c'.Outbound().error
      && c'.Inbound().Eof() && c'.lingerTime == 0 && c'.rtTimeout == c.rtTimeout
  {
    hide SenderInv;
    hide Receive;
    hide Wrap;
    hide Fill;
    hide StampAll;
    ArrivalSender(c, PeerFin(c.receiver));
  }

  /** What may follow: the reader takes everything, the peer's FIN arrives if it is missing, and time passes. */
  function Afterwards(c: Connection): seq<Op> {
    var c1 := Step(c, Read(|c.Inbound().buffer|));
    [Read(|c.Inbound().buffer|)]
    + (if c1.Inbound().Eof() then [] else [Arrive(PeerFin(c1.receiver))])
    + [Elapse(c.rtTimeout * 10)]
  }

  lemma RunOfTwo(c: Connection, a: Op, b: Op)
    ensures Run(c, [a, b]) == Step(Step(c, a), b)
  {
    hide Step;
    assert [a, b][1..] == [b] && Run(c, [a, b]) == Run(Step(c, a), [b]);
    assert [b][1..] == [] && Run(Step(c, a), [b]) == Step(Step(c, a), b);
  }

  lemma RunOfThree(c: Connection, a: Op, b: Op, d: Op)
    ensures Run(c, [a, b, d]) == Step(Step(Step(c, a), b), d)
  {
    hide Step;
    assert [a, b, d][1..] == [b, d];
    RunOfTwo(Step(c, a), b, d);
  }

  lemma ReadsOut(c: Connection)
    requires ReceiverInv(c.receiver)
    ensures var c1 := Step(c, Read(|c.Inbound().buffer|));
      && c1 == c.(receiver := c1.receiver)
      && ReceiverInv(c1.receiver) && c1.Inbound().buffer == []
      && c1.Inbound().capacity == c.Inbound().capacity
  {
    StepKeepsReceiverInv(c, Read(|c.Inbound().buffer|));
  }

  /** A stranded endpoint can always still close without its FIN, unless it can receive nothing at all. */
  lemma StrandedCanClose(c: Connection)
    requires SenderInv(c.sender) && ReceiverInv(c.receiver) && c.Inbound().capacity > 0
    requires Stranded(c.sender) && !c.Outbound().error && c.sender.next > 0
    ensures var c' := Run(c, Afterwards(c)); !c'.active && !c'.Outbound().error && !c'.sender.finSent
  {
    hide SenderInv;
    hide ReceiverInv;
    hide Stranded;
    hide Tick;
    hide SegmentArrives;
    hide Receive;
    hide PeerFin;
    var read, wait := Read(|c.Inbound().buffer|), Elapse(c.rtTimeout * 10);
    ReadsOut(c);
    var c1 := Step(c, read);
    if c1.Inbound().Eof() {
      assert Afterwards(c) == [read, wait];
      RunOfTwo(c, read, wait);
      StrandedTick(c1, c.rtTimeout * 10);
    } else {
      var fin := Arrive(PeerFin(c1.receiver));
      assert Afterwards(c) == [read, fin, wait];
      RunOfThree(c, read, fin, wait);
      PeerFinFinishes(c1.receiver);
      PeerFinArrives(c1);
      StrandedTick(Step(c1, fin), c.rtTimeout * 10);
    }
  }

  // ------------------------------------------------------------------
  // From any other endpoint: no close without a FIN

  /** The input has ended with room for the FIN, and the endpoint is active, broken, or has sent it. */
  ghost predicate OnCourse(c: Connection) {
    CloseInv(c) && c.Outbound().inputEnded && (c.active || c.Outbound().error || c.sender.finSent)
  }

  lemma StepStaysOnCourse(c: Connection, op: Op)
    requires OnCourse(c)
    ensures OnCourse(Step(c, op))
  {
    hide SenderInv;
    hide OnlyWindowBlocks;
    hide Step;
    hide AckedSender;
    StepKeepsCloseInv(c, op);
    StepFlags(c, op);
    StepSender(c, op);
    if c.active && !Step(c, op).active && !Step(c, op).Outbound().error {
      StepLife(c, op);
      FinishedMeansFinAcked(Step(c, op));
    } else if c.sender.finSent && op.Arrive? {
      AckKeepsFin(c.sender, op.seg.header);
    }
  }

  lemma AckKeepsFin(s: Sender, h: TcpHeader)
    ensures AckedSender(s, h).finSent == s.finSent
  {
    hide Unwrap;
    hide AckTimer;
  }

  lemma {:induction false} RunStaysOnCourse(c: Connection, ops: seq<Op>)
    requires OnCourse(c)
    ensures OnCourse(Run(c, ops))
    decreases |ops|
  {
    hide OnCourse;
    hide Step;
    if ops == [] {
    } else {
      StepStaysOnCourse(c, ops[0]);
      RunStaysOnCourse(Step(c, ops[0]), ops[1..]);
    }
  }

  /** Without a capacity nothing is ever received, and so nothing ever closes but by an error. */
  ghost predicate Deaf(c: Connection) {
    && SenderInv(c.sender) && OnlyWindowBlocks(c.sender) && ReceiverInv(c.receiver)
    && c.Inbound().capacity == 0 && c.receiver.ackno == 0
    && (c.active || c.Outbound().error)
  }

  lemma DeafReceive(r: Receiver, seg: Segment)
    requires ReceiverInv(r) && r.reassembler.output.capacity == 0 && r.ackno == 0
    ensures Receive(r, seg).ackno == 0
  {
    hide Unwrap;
    hide Push;
    hide Sorted;
  }

  lemma StepStaysDeaf(c: Connection, op: Op)
    requires Deaf(c)
    ensures Deaf(Step(c, op))
  {
    hide SenderInv;
    hide OnlyWindowBlocks;
    hide Step;
    hide Receive;
    StepSender(c, op);
    StepBlocks(c, op);
    StepKeepsReceiverInv(c, op);
    StepKeepsCapacity(c, op);
    StepReceiver(c, op);
    if op.Arrive? {
      DeafReceive(c.receiver, op.seg);
    }
    StepFlags(c, op);
    StepLife(c, op);
    NothingEnds(Step(c, op).receiver);
  }

  lemma NothingEnds(r: Receiver)
    requires ReceiverInv(r)
    ensures r.ackno == 0 ==> !r.Ended()
  {
  }

  lemma {:induction false} RunStaysDeaf(c: Connection, ops: seq<Op>)
    requires Deaf(c)
    ensures Deaf(Run(c, ops))
    decreases |ops|
  {
    hide Deaf;
    hide Step;
    if ops == [] {
    } else {
      StepStaysDeaf(c, ops[0]);
      RunStaysDeaf(Step(c, ops[0]), ops[1..]);
    }
  }

  // ------------------------------------------------------------------
  // Exactly when

  lemma {:induction false} RunKeepsBlocks(c: Connection, ops: seq<Op>)
    requires SenderInv(c.sender) && OnlyWindowBlocks(c.sender) && ReceiverInv(c.receiver)
    ensures var c' := Run(c, ops);
      && SenderInv(c'.sender) && OnlyWindowBlocks(c'.sender) && ReceiverInv(c'.receiver)
      && c'.Inbound().capacity == c.Inbound().capacity
    decreases |ops|
  {
    hide SenderInv;
    hide ReceiverInv;
    hide OnlyWindowBlocks;
    hide Step;
    if ops == [] {
    } else {
      StepSender(c, ops[0]);
      StepBlocks(c, ops[0]);
      StepKeepsReceiverInv(c, ops[0]);
      StepKeepsCapacity(c, ops[0]);
      RunKeepsBlocks(Step(c, ops[0]), ops[1..]);
    }
  }

  lemma StepKeepsCapacity(c: Connection, op: Op)
    requires ReceiverInv(c.receiver)
    ensures Step(c, op).Inbound().capacity == c.Inbound().capacity
  {
    hide ReceiverInv;
    hide Step;
    hide Receive;
    StepReceiver(c, op);
    if op.Arrive? {
      ReceiveKeepsInv(c.receiver, op.seg);
    }
  }

  /** Some continuation of the run closes without an error and without a FIN. */
  ghost predicate CanCloseWithoutFin(c: Connection) {
    exists more: seq<Op> :: ClosedWithoutFin(Run(c, more))
  }

  predicate ClosedWithoutFin(c: Connection) {
    !c.active && !c.Outbound().error && !c.sender.finSent
  }

  /**
   * After any run that leaves an endpoint active, unbroken and with its input open: ending the input
   * now can lead to a close without an error and without a FIN if and only if the sender is exhausted,
   * and the receiver has a capacity at all.
   */
  lemma ClosesWithoutFinExactly(rt: u16, recvCapacity: nat, sendCapacity: nat, isn: u32, ops: seq<Op>)
    requires var c := Run(NewConnection(rt, recvCapacity, sendCapacity, isn), ops);
      c.active && !c.Outbound().error && !c.Outbound().inputEnded
    ensures var c := Run(NewConnection(rt, recvCapacity, sendCapacity, isn), ops);
      CanCloseWithoutFin(Step(c, EndInput)) <==> Exhausted(c.sender) && recvCapacity > 0
  {
    hide SenderInv;
    hide ReceiverInv;
    hide OnlyWindowBlocks;
    hide Step;
    hide Run;
    hide ClosedWithoutFin;
    var c0 := NewConnection(rt, recvCapacity, sendCapacity, isn);
    var c := Run(c0, ops);
    NewCloseInv(rt, recvCapacity, sendCapacity, isn);
    NewReceiverInv(recvCapacity);
    RunKeepsBlocks(c0, ops);
    if recvCapacity == 0 {
      RunStaysDeaf(c0, ops);
      DeafNeverCloses(Step(c, EndInput), c);
    } else if Exhausted(c.sender) {
      ExhaustedCanClose(c);
    } else {
      UnexhaustedNeverCloses(c);
    }
  }

  lemma ExhaustedCanClose(c: Connection)
    requires SenderInv(c.sender) && ReceiverInv(c.receiver) && c.Inbound().capacity > 0
    requires Exhausted(c.sender) && !c.Outbound().error
    ensures CanCloseWithoutFin(Step(c, EndInput))
  {
    hide SenderInv;
    hide ReceiverInv;
    hide EndInputStream;
    var e := Step(c, EndInput);
    EndInputStrands(c);
    StepSender(c, EndInput);
    StrandedCanClose(e);
    assert ClosedWithoutFin(Run(e, Afterwards(e)));
  }

  lemma UnexhaustedNeverCloses(c: Connection)
    requires SenderInv(c.sender) && OnlyWindowBlocks(c.sender) && c.active
    requires !Exhausted(c.sender) && !c.Outbound().inputEnded
    ensures !CanCloseWithoutFin(Step(c, EndInput))
  {
    hide SenderInv;
    hide OnlyWindowBlocks;
    hide Step;
    hide Run;
    hide Exhausted;
    var e := Step(c, EndInput);
    StepKeepsCloseInv(c, EndInput);
    StepFlags(c, EndInput);
    EndInputStaysActive(c);
    hide CloseInv;
    forall more: seq<Op> ensures !ClosedWithoutFin(Run(e, more)) {
      RunStaysOnCourse(e, more);
    }
  }

  lemma EndInputStaysActive(c: Connection)
    ensures Step(c, EndInput).active == c.active
  {
    hide Fill;
    hide StampAll;
  }

  lemma DeafNeverCloses(e: Connection, c: Connection)
    requires Deaf(c) && e == Step(c, EndInput)
    ensures !CanCloseWithoutFin(e)
  {
    hide Step;
    hide Run;
    StepStaysDeaf(c, EndInput);
    forall more: seq<Op> ensures !ClosedWithoutFin(Run(e, more)) {
      RunStaysDeaf(e, more);
    }
  }

  // ------------------------------------------------------------------
  // A run that gets there

  /** The peer has finished first, all our bytes are acknowledged, and the input may still go on. */
  ghost predicate Idle(c: Connection) {
    && c.active && !c.linger && !c.Outbound().error
    && c.Inbound().Eof()
    && SenderInv(c.sender) && c.sender.next > 0 && c.sender.inFlight == 0 && !c.sender.finSent
    && c.Outbound().buffer == [] && !c.Outbound().inputEnded
  }

  /** The peer's SYN and FIN, acknowledging our SYN. */
  function Opening(): Segment {
    Segment(DEFAULT_HEADER.(ack := true, ackno := 1, win := 1, syn := true, fin := true), [])
  }

  function Acknowledgment(ackno: u32): Segment {
    Segment(DEFAULT_HEADER.(seqno := 1, ack := true, ackno := ackno, win := 1), [])
  }

  function AfterConnect(): Connection {
    Step(NewConnection(1, 10, 10, 0), Connect)
  }

  function AfterOpening(): Connection {
    Step(AfterConnect(), Arrive(Opening()))
  }

  function AfterByte(): Connection {
    Step(Step(AfterOpening(), Write([7])), Arrive(Acknowledgment(2)))
  }

  /** The acknowledgment of the SYN comes in once more. */
  function AfterStaleAck(): Connection {
    Step(AfterByte(), Arrive(Acknowledgment(1)))
  }

  lemma SynFacts()
    ensures var s, t := NewSender(10, 1, 0), FillWindow(NewSender(10, 1, 0));
      && t.next == 1 && t.isn == 0 && t.stream == EmptyQueue(10) && !t.finSent
      && t.ackno == 0 && t.window == 1
  {
    hide Wrap;
    hide Fill;
    var s := NewSender(10, 1, 0);
    assert CanSend(s, 1) && PayloadLength(s, 1) == 0 && s.stream.Pop(0) == s.stream;
    assert NextSegment(s, 1).Length() == 1 && !NextSegment(s, 1).header.fin;
    SenderRuns.FillOnce(s, 1);
  }

  lemma ConnectFacts()
    ensures var c := AfterConnect();
      && c.sender == FillWindow(NewSender(10, 1, 0)).(segmentsOut := [])
      && c.receiver == NewReceiver(10) && c.active && c.linger && c.rtTimeout == 1
  {
    hide StampAll;
    hide FillWindow;
  }

  /** A payload-free segment leaves a finished inbound stream finished. */
  lemma StaysFinished(r: Receiver, seg: Segment)
    requires r.reassembler.output.Eof() && seg.payload == []
    ensures Receive(r, seg).reassembler.output.Eof()
  {
    hide Unwrap;
    hide Place;
    hide Drain;
  }

  /** An acknowledgment of everything, or an old one when everything is acknowledged, leaves an idle connection. */
  lemma ArrivalLeavesIdle(c: Connection, seg: Segment)
    requires c.active && SenderInv(c.sender) && c.sender.next > 0 && !c.sender.finSent && c.sender.segmentsOut == []
    requires c.Outbound().buffer == [] && !c.Outbound().inputEnded && !c.Outbound().error
    requires !seg.header.rst && seg.header.ack
    requires Receive(c.receiver, seg).reassembler.output.Eof()
    requires Unwrap(seg.header.ackno, c.sender.isn, c.sender.next) <= c.sender.next
    requires c.sender.inFlight == 0 || Unwrap(seg.header.ackno, c.sender.isn, c.sender.next) == c.sender.next
    ensures var c' := SegmentArrives(c, seg);
      && Idle(c') && c'.sender.next == c.sender.next && c'.sender.isn == c.sender.isn && c'.sender.segmentsOut == []
      && c'.sender.ackno == Unwrap(seg.header.ackno, c.sender.isn, c.sender.next)
      && c'.sender.window == seg.header.win
      && c'.receiver == Receive(c.receiver, seg)
      && c'.Outbound().capacity == c.Outbound().capacity
  {
    hide SenderInv;
    hide Receive;
    hide Unwrap;
    hide Wrap;
    hide StampAll;
    ArrivalSender(c, seg);
    var a := Unwrap(seg.header.ackno, c.sender.isn, c.sender.next);
    var s := AcceptAck(c.sender, a, seg.header.win);
    SenderRuns.LastAck(c.sender, a, seg.header.win);
    assert !CanSend(s, Limit(s));
  }

  lemma ConnectInv()
    ensures SenderInv(AfterConnect().sender)
  {
    SenderRuns.NewSenderInv(10, 1, 0);
    hide SenderInv;
    hide Step;
    StepSender(NewConnection(1, 10, 10, 0), Connect);
  }

  lemma UnwrapFacts()
    ensures Unwrap(1, 0, 1) == 1 && Unwrap(2, 0, 2) == 2 && Unwrap(1, 0, 2) == 1
  {
  }

  lemma OpeningFacts()
    ensures var c := AfterOpening();
      && Idle(c) && c.sender.next == 1 && c.sender.isn == 0
      && c.sender.ackno == 1 && c.sender.window == 1 && c.sender.segmentsOut == []
      && c.Outbound().capacity == 10
  {
    hide AfterConnect;
    hide SegmentArrives;
    hide Receive;
    hide FillWindow;
    hide Unwrap;
    hide SenderInv;
    hide Idle;
    ConnectInv();
    ConnectFacts();
    SynFacts();
    OpeningReceived();
    UnwrapFacts();
    ArrivalLeavesIdle(AfterConnect(), Opening());
  }

  /** One byte is sent as soon as it is written. */
  lemma WriteFacts(c: Connection)
    requires Idle(c) && c.sender.segmentsOut == [] && c.sender.ackno == c.sender.next && c.sender.window == 1
    requires c.Outbound().capacity > 0
    ensures var c' := WriteData(c, [7]);
      && c'.active && SenderInv(c'.sender) && c'.sender.next == c.sender.next + 1 && !c'.sender.finSent
      && c'.sender.segmentsOut == [] && c'.sender.isn == c.sender.isn
      && c'.Outbound().buffer == [] && !c'.Outbound().inputEnded && !c'.Outbound().error
      && c'.receiver == c.receiver
  {
    hide SenderInv;
    hide StampAll;
    hide Wrap;
    var s := WriteStream(c.sender, [7]);
    StepSender(c, Write([7]));
    assert s.stream.buffer == [7];
    assert CanSend(s, Limit(s));
    assert SendOne(s, Limit(s)).stream.buffer == [];
    SenderRuns.FillOnce(s, Limit(s));
  }

  lemma OpeningReceived()
    ensures Receive(NewReceiver(10), Opening()).reassembler.output.Eof()
  {
    assert Unwrap(0, 0, 0) == 0;
  }

  lemma ByteFacts()
    ensures var c := AfterByte();
      Idle(c) && c.sender.next == 2 && c.sender.isn == 0 && c.sender.segmentsOut == []
  {
    hide AfterOpening;
    hide SegmentArrives;
    hide WriteData;
    hide Receive;
    hide Unwrap;
    hide SenderInv;
    OpeningFacts();
    var c := AfterOpening();
    WriteFacts(c);
    StaysFinished(c.receiver, Acknowledgment(2));
    UnwrapFacts();
    hide Idle;
    ArrivalLeavesIdle(WriteData(c, [7]), Acknowledgment(2));
  }

  lemma StaleFacts()
    ensures var c := AfterStaleAck();
      Idle(c) && c.sender.next == 2 && c.sender.ackno == 1 && c.sender.window == 1
  {
    hide AfterByte;
    hide SegmentArrives;
    hide Receive;
    hide Unwrap;
    hide SenderInv;
    ByteFacts();
    var c := AfterByte();
    StaysFinished(c.receiver, Acknowledgment(1));
    UnwrapFacts();
    ArrivalLeavesIdle(c, Acknowledgment(1));
  }

  /**
   * A connection that has never sent its FIN can go inactive without an error: connect, the peer's
   * SYN and FIN, one byte sent and acknowledged, the acknowledgment of the SYN again, end of input,
   * and a tick.
   */
  lemma ClosesWithoutFin()
    ensures var c := Step(Step(AfterStaleAck(), EndInput), Elapse(1));
      !c.active && !c.Outbound().error && !c.sender.finSent
  {
    hide AfterStaleAck;
    hide EndInputStream;
    hide Tick;
    hide SenderInv;
    StaleFacts();
    ExhaustedClosesWithoutFin(AfterStaleAck(), 1);
  }
}
