/** When an endpoint goes inactive without an error. */
module CleanClose {
  import opened Numbers
  import opened WrappingIntegers
  import opened Segments
  import opened Reception
  import opened Sending
  import opened SenderInvariant
  import SenderRuns
  import opened ConnectionSteps
  import opened ConnectionInvariant

  /** There are bytes to be sent, or the end of the stream. */
  predicate HasMore(s: Sender) {
    !s.finSent && (s.stream.buffer != [] || s.stream.inputEnded)
  }

  /** Whatever waits to be sent is held up by the window alone. */
  predicate OnlyWindowBlocks(s: Sender) {
    && (s.stream.inputEnded ==> s.next > 0)
    && (HasMore(s) ==> s.next > 0 && s.next >= Limit(s))
  }

  lemma {:induction false} FillEnds(s: Sender, limit: nat)
    ensures !CanSend(Fill(s, limit), limit)
    decreases limit - s.next
  {
    hide SendOne;
    if CanSend(s, limit) {
      FillEnds(SendOne(s, limit), limit);
    }
  }

  lemma FillBlocks(c: Connection)
    requires SenderInv(c.sender)
    ensures OnlyWindowBlocks(FillAndSend(c).sender)
  {
    hide LogInv;
    hide QueueInv;
    hide Tiles;
    hide Payloads;
    hide Fill;
    hide StampAll;
    FillEnds(c.sender, Limit(c.sender));
    FillKeepsInv(c.sender, Limit(c.sender));
  }

  /** The same stream and numbers; timer, queues and error flag may differ. */
  predicate SameStanding(s: Sender, s': Sender) {
    && s'.stream == s.stream.(error := s'.stream.error)
    && s'.next == s.next && s'.inFlight == s.inFlight && s'.finSent == s.finSent
    && s'.ackno == s.ackno && s'.window == s.window
  }

  lemma ReplyStanding(c: Connection, seg: Segment)
    requires c.sender.next > 0
    ensures SameStanding(c.sender, Reply(c, seg).sender)
  {
    hide StampAll;
    hide Fill;
    hide Wrap;
  }

  lemma ReplyBlocks(c: Connection, seg: Segment)
    requires SenderInv(c.sender) && OnlyWindowBlocks(c.sender)
    ensures OnlyWindowBlocks(Reply(c, seg).sender)
  {
    hide SenderInv;
    hide FillAndSend;
    if c.sender.next > 0 {
      hide Reply;
      ReplyStanding(c, seg);
    } else {
      FillBlocks(c);
      hide StampAll;
      hide Wrap;
    }
  }

  lemma HandleAckBlocks(c: Connection, h: TcpHeader)
    requires SenderInv(c.sender) && OnlyWindowBlocks(c.sender) && !h.rst
    ensures OnlyWindowBlocks(HandleAck(c, h).sender)
  {
    hide SenderInv;
    hide FillAndSend;
    hide Unwrap;
    if h.ack {
      AckedSenderInv(c.sender, h);
      FillBlocks(c.(sender := AckReceived(c.sender, h.ackno, h.win)));
    }
  }

  lemma ArrivalBlocks(c: Connection, seg: Segment)
    requires SenderInv(c.sender) && OnlyWindowBlocks(c.sender)
    ensures OnlyWindowBlocks(SegmentArrives(c, seg).sender)
  {
    hide SenderInv;
    hide Receive;
    hide HandleAck;
    hide Reply;
    if !seg.header.rst {
      hide OnlyWindowBlocks;
      var c1 := c.(lingerTime := 0, receiver := Receive(c.receiver, seg));
      HandleAckBlocks(c1, seg.header);
      HandleAckSender(c1, seg.header);
      ReplyBlocks(TryCleanClose(NotePassiveClose(HandleAck(c1, seg.header))), seg);
    }
  }

  lemma TickStanding(c: Connection, ms: nat)
    ensures SameStanding(c.sender, Tick(c, ms).sender)
  {
    hide StampAll;
    hide Wrap;
    hide TickTimer;
    hide Retransmitted;
  }

  lemma StepBlocks(c: Connection, op: Op)
    requires SenderInv(c.sender) && OnlyWindowBlocks(c.sender)
    ensures OnlyWindowBlocks(Step(c, op).sender)
  {
    hide SenderInv;
    hide FillAndSend;
    hide SegmentArrives;
    hide Tick;
    match op {
      case Connect => FillBlocks(c);
      case Write(data) =>
        WriteKeepsInv(c.sender, data);
        FillBlocks(c.(sender := WriteStream(c.sender, data)));
      case EndInput =>
        WriteKeepsInv(c.sender, []);
        FillBlocks(c.(sender := EndStream(c.sender)));
      case Arrive(seg) => ArrivalBlocks(c, seg);
      case Elapse(ms) => TickStanding(c, ms);
      case Read(n) =>
      case Collect =>
    }
  }

  // ------------------------------------------------------------------
  // A FIN that is left behind

  /** The stream is used up and everything sent is acknowledged, but the FIN was not sent. */
  predicate Stranded(s: Sender) {
    s.stream.Eof() && !s.finSent && s.inFlight == 0
  }

  /**
   * Every byte is sent and acknowledged, but the last accepted acknowledgment and window leave no
   * number for a FIN. As the window counts as one at least, that acknowledgment was an old one.
   */
  predicate Exhausted(s: Sender) {
    s.stream.buffer == [] && !s.finSent && s.inFlight == 0 && Limit(s) <= s.next
  }

  /** A fill leaves the FIN behind only if it sends nothing, for want of a number. */
  lemma FillStrands(s: Sender)
    ensures Stranded(FillWindow(s)) <==> Stranded(s) && Limit(s) <= s.next
  {
    if CanSend(s, Limit(s)) {
      SenderRuns.FillGrows(SendOne(s, Limit(s)), Limit(s));
      SendOneFlies(s, Limit(s));
      hide SendOne;
    }
  }

  lemma SendOneFlies(s: Sender, limit: nat)
    requires CanSend(s, limit)
    ensures SendOne(s, limit).inFlight > 0
  {
    hide NextSegment;
  }

  lemma ReplyKeepsFin(c: Connection, seg: Segment)
    requires !Stranded(c.sender)
    ensures !Stranded(Reply(c, seg).sender)
  {
    hide FillWindow;
    hide StampAll;
    hide Wrap;
    FillStrands(c.sender);
  }

  /** No acknowledgment leaves a FIN behind: one that clears the flight makes room. */
  lemma HandleAckKeepsFin(c: Connection, h: TcpHeader)
    requires SenderInv(c.sender) && OnlyWindowBlocks(c.sender) && !Stranded(c.sender)
    ensures !Stranded(HandleAck(c, h).sender)
  {
    hide SenderInv;
    hide FillWindow;
    hide StampAll;
    hide Unwrap;
    hide AckTimer;
    hide AckedLength;
    var a := Unwrap(h.ackno, c.sender.isn, c.sender.next);
    if h.ack && a <= c.sender.next {
      SenderRuns.LastAck(c.sender, a, h.win);
      FillStrands(AcceptAck(c.sender, a, h.win));
    } else {
      FillStrands(c.sender);
    }
  }

  lemma ArrivalKeepsFin(c: Connection, seg: Segment)
    requires SenderInv(c.sender) && OnlyWindowBlocks(c.sender) && !Stranded(c.sender)
    ensures !Stranded(SegmentArrives(c, seg).sender)
  {
    hide SenderInv;
    hide Receive;
    hide HandleAck;
    hide Reply;
    hide OnlyWindowBlocks;
    if !seg.header.rst {
      var c1 := c.(lingerTime := 0, receiver := Receive(c.receiver, seg));
      HandleAckKeepsFin(c1, seg.header);
      ReplyKeepsFin(TryCleanClose(NotePassiveClose(HandleAck(c1, seg.header))), seg);
    }
  }

  /** Whatever the order of acknowledgments, the FIN is left behind only by ending the input when exhausted. */
  lemma StepStrands(c: Connection, op: Op)
    requires SenderInv(c.sender) && OnlyWindowBlocks(c.sender) && !Stranded(c.sender)
    ensures Stranded(Step(c, op).sender) <==> op.EndInput? && Exhausted(c.sender)
  {
    hide SenderInv;
    hide OnlyWindowBlocks;
    hide FillWindow;
    hide StampAll;
    hide SegmentArrives;
    hide Tick;
    match op {
      case Connect => FillStrands(c.sender);
      case Write(data) => FillStrands(WriteStream(c.sender, data));
      case EndInput => FillStrands(EndStream(c.sender));
      case Arrive(seg) => ArrivalKeepsFin(c, seg);
      case Elapse(ms) => TickStanding(c, ms);
      case Read(n) =>
      case Collect =>
    }
  }

  ghost predicate CloseInv(c: Connection) {
    SenderInv(c.sender) && OnlyWindowBlocks(c.sender) && !Stranded(c.sender)
  }

  /** The operation does not end the input when no number is left for the FIN. */
  predicate LeavesRoom(c: Connection, op: Op) {
    op.EndInput? ==> !Exhausted(c.sender)
  }

  predicate AllLeaveRoom(c: Connection, ops: seq<Op>)
    decreases |ops|
  {
    ops == [] || (LeavesRoom(c, ops[0]) && AllLeaveRoom(Step(c, ops[0]), ops[1..]))
  }

  lemma StepKeepsCloseInv(c: Connection, op: Op)
    requires CloseInv(c) && LeavesRoom(c, op)
    ensures CloseInv(Step(c, op))
  {
    hide SenderInv;
    hide OnlyWindowBlocks;
    hide Stranded;
    hide Exhausted;
    hide Step;
    StepSender(c, op);
    StepBlocks(c, op);
    StepStrands(c, op);
  }

  /** A used-up stream with nothing in flight has sent its FIN, and it is acknowledged. */
  lemma FinishedMeansFinAcked(c: Connection)
    requires CloseInv(c) && c.Outbound().Eof() && c.sender.inFlight == 0
    ensures c.sender.finSent && c.sender.maxAck == c.sender.next
  {
    hide SenderInv;
    SenderRuns.NoFlightMeansAllAcked(c.sender);
  }

  // ------------------------------------------------------------------
  // Acknowledgments that never go back are enough

  /** The acknowledgment of an arriving segment, if it is accepted, is not older than the last one. */
  predicate AckInOrder(c: Connection, op: Op) {
    op.Arrive? && op.seg.header.ack && !op.seg.header.rst ==>
      var a := Unwrap(op.seg.header.ackno, c.sender.isn, c.sender.next);
      a <= c.sender.next ==> c.sender.ackno <= a
  }

  predicate AcksInOrder(c: Connection, ops: seq<Op>)
    decreases |ops|
  {
    ops == [] || (AckInOrder(c, ops[0]) && AcksInOrder(Step(c, ops[0]), ops[1..]))
  }

  /** In runs whose accepted acknowledgments never go back, the input never ends without room for the FIN. */
  lemma {:induction false} OrderedAcksLeaveRoom(c: Connection, ops: seq<Op>)
    requires SenderInv(c.sender) && c.sender.ackno == c.sender.maxAck && AcksInOrder(c, ops)
    ensures AllLeaveRoom(c, ops)
    decreases |ops|
  {
    hide SenderInv;
    hide Step;
    hide Unwrap;
    if ops == [] {
    } else {
      SenderRuns.NoFlightMeansAllAcked(c.sender);
      StepSender(c, ops[0]);
      SenderRuns.AckBounded(c.sender);
      OrderedAcksLeaveRoom(Step(c, ops[0]), ops[1..]);
    }
  }

  // ------------------------------------------------------------------
  // Flags of the outbound stream

  lemma AckFlags(c: Connection, h: TcpHeader, seg: Segment)
    ensures HandleAck(c, h).Outbound().inputEnded == Reply(c, seg).Outbound().inputEnded == c.Outbound().inputEnded
    ensures HandleAck(c, h).Outbound().error == Reply(c, seg).Outbound().error == c.Outbound().error
  {
    hide Fill;
    hide StampAll;
    hide Unwrap;
    hide Wrap;
    hide AckTimer;
    var s := AckReceived(c.sender, h.ackno, h.win);
    SenderRuns.FillGrows(s, Limit(s));
    SenderRuns.FillGrows(c.sender, Limit(c.sender));
  }

  /** Only ending the input marks its end, and an error stays. */
  lemma StepFlags(c: Connection, op: Op)
    ensures Step(c, op).Outbound().inputEnded == (c.Outbound().inputEnded || op.EndInput?)
    ensures c.Outbound().error ==> Step(c, op).Outbound().error
  {
    hide Fill;
    hide StampAll;
    hide HandleAck;
    hide Reply;
    hide Receive;
    hide TickTimer;
    hide Retransmitted;
    hide SendEmpty;
    match op {
      case Connect => SenderRuns.FillGrows(c.sender, Limit(c.sender));
      case Write(data) => SenderRuns.FillGrows(WriteStream(c.sender, data), Limit(c.sender));
      case EndInput => SenderRuns.FillGrows(EndStream(c.sender), Limit(c.sender));
      case Arrive(seg) =>
        var c1 := c.(lingerTime := 0, receiver := Receive(c.receiver, seg));
        AckFlags(c1, seg.header, seg);
        AckFlags(TryCleanClose(NotePassiveClose(HandleAck(c1, seg.header))), seg.header, seg);
      case Elapse(ms) => SendEmptyStream(c.sender, ms);
      case Read(n) =>
      case Collect =>
    }
  }

  lemma SendEmptyStream(s: Sender, ms: nat)
    ensures SendEmpty(TickSender(s, ms).(segmentsOut := [])).stream == s.stream
  {
    hide TickTimer;
    hide Retransmitted;
    hide Wrap;
  }

  // ------------------------------------------------------------------
  // The closing step

  /** The peer's stream is finished and read while our own is still open. */
  predicate PeerFinishedFirst(c: Connection) {
    c.Inbound().Eof() && !c.Outbound().Eof()
  }

  /** A segment arrives, and the peer has finished first. */
  predicate FinishesFirst(c: Connection, op: Op) {
    op.Arrive? && !op.seg.header.rst && PeerFinishedFirst(Step(c, op))
  }

  lemma ReplyKeepsRest(c: Connection, seg: Segment)
    ensures var c' := Reply(c, seg);
      c'.active == c.active && c'.linger == c.linger && c'.lingerTime == c.lingerTime
      && c'.rtTimeout == c.rtTimeout && c'.receiver == c.receiver
  {
    hide StampAll;
    hide Fill;
    hide Wrap;
  }

  lemma HandleAckKeepsRest(c: Connection, h: TcpHeader)
    ensures var c' := HandleAck(c, h);
      c'.active == c.active && c'.linger == c.linger && c'.lingerTime == c.lingerTime
      && c'.rtTimeout == c.rtTimeout && c'.receiver == c.receiver
  {
    hide StampAll;
    hide Fill;
    hide AckReceived;
  }

  lemma ReplyFinished(c: Connection, seg: Segment)
    requires c.Outbound().Eof() && c.sender.next > 0
    ensures Reply(c, seg).Outbound().Eof() && Reply(c, seg).sender.inFlight == c.sender.inFlight
  {
    hide StampAll;
    hide Fill;
    hide Wrap;
  }

  lemma ReplyStillOpen(c: Connection, seg: Segment)
    requires SenderInv(c.sender) && OnlyWindowBlocks(c.sender) && !c.Outbound().Eof()
    ensures !Reply(c, seg).Outbound().Eof()
  {
    if c.sender.next > 0 {
      hide Reply;
      hide SenderInv;
      ReplyStanding(c, seg);
    } else {
      hide StampAll;
      hide Wrap;
      hide LogInv;
      hide QueueInv;
      hide Tiles;
      hide Payloads;
      SenderRuns.FillSendsAllThatFits(c.sender, Limit(c.sender));
    }
  }

  /** What an arriving segment does to the life of the connection. */
  lemma ArrivalLife(c: Connection, seg: Segment)
    requires SenderInv(c.sender) && OnlyWindowBlocks(c.sender) && !seg.header.rst
    ensures var c' := SegmentArrives(c, seg);
      && c'.rtTimeout == c.rtTimeout && c'.lingerTime == 0
      && (c'.active <==> c.active && !(c'.BothFinished() && (!c'.linger || c.rtTimeout == 0)))
      && (!c'.linger <==> !c.linger || PeerFinishedFirst(c'))
  {
    hide SenderInv;
    hide Receive;
    hide HandleAck;
    hide Reply;
    hide OnlyWindowBlocks;
    var c1 := c.(lingerTime := 0, receiver := Receive(c.receiver, seg));
    var c2 := HandleAck(c1, seg.header);
    HandleAckKeepsRest(c1, seg.header);
    HandleAckBlocks(c1, seg.header);
    HandleAckSender(c1, seg.header);
    var c4 := TryCleanClose(NotePassiveClose(c2));
    ReplyKeepsRest(c4, seg);
    if c4.Outbound().Eof() {
      EofHasSyn(c4.sender);
      ReplyFinished(c4, seg);
    } else {
      ReplyStillOpen(c4, seg);
    }
  }

  lemma EofHasSyn(s: Sender)
    requires OnlyWindowBlocks(s) && s.stream.Eof()
    ensures s.next > 0
  {
  }

  /** What any operation does to the life of the connection. */
  lemma StepLife(c: Connection, op: Op)
    requires SenderInv(c.sender) && OnlyWindowBlocks(c.sender)
    ensures var c' := Step(c, op);
      && c'.rtTimeout == c.rtTimeout
      && c'.lingerTime == (match op case Arrive(_) => 0 case Elapse(ms) => c.lingerTime + ms case _ => c.lingerTime)
      && (c.active && !c'.active && !c'.Outbound().error ==>
           c'.BothFinished() && (!c'.linger || c'.lingerTime >= c.rtTimeout * 10))
      && (!c'.linger <==> !c.linger || FinishesFirst(c, op))
  {
    hide SenderInv;
    hide OnlyWindowBlocks;
    hide StampAll;
    hide Fill;
    hide TickSender;
    hide SendEmpty;
    if op.Arrive? && !op.seg.header.rst {
      hide SegmentArrives;
      ArrivalLife(c, op.seg);
    } else if op.Arrive? {
      hide HandleAck;
      hide Reply;
    }
  }

  /** The silence that the operation leaves is long enough, or none is needed. */
  predicate LingerOver(c: Connection) {
    !c.linger || c.lingerTime >= c.rtTimeout * 10
  }

  /**
   * An endpoint that is not reset closes exactly at the arrivals and ticks after which both streams
   * are finished and lingering is over or not needed.
   */
  lemma ClosesExactly(c: Connection, op: Op)
    requires SenderInv(c.sender) && OnlyWindowBlocks(c.sender)
    requires op.Arrive? ==> !op.seg.header.rst
    requires op.Elapse? ==> TickSender(c.sender, op.ms).timer.retransmissions <= MAX_RETX_ATTEMPTS
    ensures var c' := Step(c, op);
      c'.active <==> c.active && !((op.Arrive? || op.Elapse?) && c'.BothFinished() && LingerOver(c'))
  {
    hide SenderInv;
    hide OnlyWindowBlocks;
    hide StampAll;
    hide Fill;
    hide TickTimer;
    hide Retransmitted;
    if op.Arrive? {
      hide SegmentArrives;
      ArrivalLife(c, op.seg);
    }
  }

  // ------------------------------------------------------------------
  // Runs

  /** Milliseconds since the last arrival, when `already` had passed before the run. */
  function QuietTime(ops: seq<Op>, already: nat): nat
    decreases |ops|
  {
    if ops == [] then already
    else QuietTime(ops[1..], match ops[0] case Arrive(_) => 0 case Elapse(ms) => already + ms case _ => already)
  }

  /** At some arrival of the run the peer had finished first. */
  predicate ClosedPassively(c: Connection, ops: seq<Op>)
    decreases |ops|
  {
    ops != [] && (FinishesFirst(c, ops[0]) || ClosedPassively(Step(c, ops[0]), ops[1..]))
  }

  /**
   * After every run, bytes that wait to be sent, or the end of the stream, wait for the window alone:
   * the SYN is out, and so is as much as the last accepted acknowledgment and window allow, or one
   * number beyond the acknowledgment if the window is closed.
   */
  lemma SendsAllItMay(rt: u16, recvCapacity: nat, sendCapacity: nat, isn: u32, ops: seq<Op>)
    ensures var s := Run(NewConnection(rt, recvCapacity, sendCapacity, isn), ops).sender;
      HasMore(s) ==> s.next > 0 && s.next >= s.ackno + (if s.window == 0 then 1 else s.window)
  {
    hide Run;
    hide SenderInv;
    NewCloseInv(rt, recvCapacity, sendCapacity, isn);
    RunBlocks(NewConnection(rt, recvCapacity, sendCapacity, isn), ops);
  }

  lemma {:induction false} RunBlocks(c: Connection, ops: seq<Op>)
    requires SenderInv(c.sender) && OnlyWindowBlocks(c.sender)
    ensures SenderInv(Run(c, ops).sender) && OnlyWindowBlocks(Run(c, ops).sender)
    decreases |ops|
  {
    hide SenderInv;
    hide OnlyWindowBlocks;
    hide Step;
    if ops == [] {
    } else {
      StepSender(c, ops[0]);
      StepBlocks(c, ops[0]);
      RunBlocks(Step(c, ops[0]), ops[1..]);
    }
  }

  /** After every run, lingering is not needed exactly if the peer finished first at some arrival. */
  lemma {:induction false} LingerExactly(c: Connection, ops: seq<Op>)
    requires SenderInv(c.sender) && OnlyWindowBlocks(c.sender)
    ensures !Run(c, ops).linger <==> !c.linger || ClosedPassively(c, ops)
    decreases |ops|
  {
    hide SenderInv;
    hide OnlyWindowBlocks;
    hide Step;
    hide FinishesFirst;
    if ops == [] {
    } else {
      StepSender(c, ops[0]);
      StepBlocks(c, ops[0]);
      StepLife(c, ops[0]);
      LingerExactly(Step(c, ops[0]), ops[1..]);
    }
  }

  lemma {:induction false} RunLife(c: Connection, ops: seq<Op>)
    requires CloseInv(c) && AllLeaveRoom(c, ops)
    ensures var c' := Run(c, ops);
      && CloseInv(c')
      && c'.rtTimeout == c.rtTimeout
      && c'.lingerTime == QuietTime(ops, c.lingerTime)
      && (!c'.linger <==> !c.linger || ClosedPassively(c, ops))
    decreases |ops|
  {
    hide SenderInv;
    hide OnlyWindowBlocks;
    hide Step;
    hide LeavesRoom;
    hide FinishesFirst;
    if ops == [] {
    } else {
      StepLife(c, ops[0]);
      StepKeepsCloseInv(c, ops[0]);
      RunLife(Step(c, ops[0]), ops[1..]);
    }
  }

  /**
   * In runs that do not end the input without room for the FIN, whatever acknowledgments arrive, a
   * connection goes inactive without an error only if its FIN is sent and acknowledged, the peer's
   * stream is delivered to its end and read, and either the peer finished first or nothing has
   * arrived for ten timeouts.
   */
  lemma ClosesCleanly(rt: u16, recvCapacity: nat, sendCapacity: nat, isn: u32, ops: seq<Op>, op: Op)
    requires var c0 := NewConnection(rt, recvCapacity, sendCapacity, isn);
      && AllLeaveRoom(c0, ops)
      && LeavesRoom(Run(c0, ops), op)
      && Run(c0, ops).active
      && !Step(Run(c0, ops), op).active
      && !Step(Run(c0, ops), op).Outbound().error
    ensures var c0 := NewConnection(rt, recvCapacity, sendCapacity, isn);
      var c, c' := Run(c0, ops), Step(Run(c0, ops), op);
      && c'.sender.finSent && c'.sender.inFlight == 0 && c'.sender.maxAck == c'.sender.next
      && c'.Outbound().Eof()
      && c'.Inbound().Eof()
      && (ClosedPassively(c0, ops) || ClosedPassively(c, [op]) || QuietTime([op], QuietTime(ops, 0)) >= rt * 10)
  {
    hide SenderInv;
    hide OnlyWindowBlocks;
    hide Step;
    hide LeavesRoom;
    hide FinishesFirst;
    var c0 := NewConnection(rt, recvCapacity, sendCapacity, isn);
    NewCloseInv(rt, recvCapacity, sendCapacity, isn);
    RunLife(c0, ops);
    var c := Run(c0, ops);
    StepLife(c, op);
    StepKeepsCloseInv(c, op);
    FinishedMeansFinAcked(Step(c, op));
  }

  lemma NewCloseInv(rt: u16, recvCapacity: nat, sendCapacity: nat, isn: u32)
    ensures CloseInv(NewConnection(rt, recvCapacity, sendCapacity, isn))
  {
  }
}
