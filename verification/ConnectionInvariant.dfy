/** What one operation of an endpoint does to its sender, its receiver and its queues. */
module ConnectionInvariant {
  import opened Numbers
  import opened WrappingIntegers
  import opened Segments
  import opened Reception
  import opened Sending
  import opened SenderInvariant
  import opened ConnectionSteps

  // ------------------------------------------------------------------
  // The sender's side

  lemma FillAndSendSender(c: Connection)
    requires SenderInv(c.sender)
    ensures SenderInv(FillAndSend(c).sender) && Evolves(c.sender, FillAndSend(c).sender)
  {
    hide SenderInv;
    hide Fill;
    hide StampAll;
    var s := FillWindow(c.sender);
    FillKeepsInv(c.sender, Limit(c.sender));
    CosmeticChange(s, [], s.stream.error);
    assert FillAndSend(c).sender == s.(segmentsOut := [], stream := s.stream.(error := s.stream.error));
    EvolvesTransitive(c.sender, s, FillAndSend(c).sender);
  }

  lemma EmptyAndSendSender(c: Connection)
    requires SenderInv(c.sender)
    ensures SenderInv(EmptyAndSend(c).sender) && Evolves(c.sender, EmptyAndSend(c).sender)
  {
    hide SenderInv;
    hide SendEmpty;
    hide StampAll;
    var s := SendEmpty(c.sender);
    SendEmptyKeepsInv(c.sender);
    CosmeticChange(s, [], s.stream.error);
    assert EmptyAndSend(c).sender == s.(segmentsOut := [], stream := s.stream.(error := s.stream.error));
    EvolvesTransitive(c.sender, s, EmptyAndSend(c).sender);
  }

  lemma ReplySender(c: Connection, seg: Segment)
    requires SenderInv(c.sender)
    ensures SenderInv(Reply(c, seg).sender) && Evolves(c.sender, Reply(c, seg).sender)
  {
    hide SenderInv;
    hide FillAndSend;
    hide EmptyAndSend;
    FillAndSendSender(c);
    EmptyAndSendSender(c);
  }

  /** The sender after the acknowledgment of a segment, if it carries one. */
  function AckedSender(s: Sender, h: TcpHeader): Sender {
    if h.ack && !h.rst then AckReceived(s, h.ackno, h.win) else s
  }

  lemma AckedSenderInv(s: Sender, h: TcpHeader)
    requires SenderInv(s)
    ensures SenderInv(AckedSender(s, h))
  {
    hide SenderInv;
    var a := Unwrap(h.ackno, s.isn, s.next);
    if a <= s.next {
      AcceptAckKeepsInv(s, a, h.win);
    }
  }

  /** An arriving segment first acknowledges, and then the sender only goes on sending. */
  lemma ArrivalSender(c: Connection, seg: Segment)
    requires SenderInv(c.sender)
    ensures SenderInv(SegmentArrives(c, seg).sender)
    ensures Evolves(AckedSender(c.sender, seg.header), SegmentArrives(c, seg).sender)
  {
    hide SenderInv;
    hide FillAndSend;
    hide Reply;
    hide AckReceived;
    var s := AckedSender(c.sender, seg.header);
    AckedSenderInv(c.sender, seg.header);
    if seg.header.rst {
      CosmeticChange(s, s.segmentsOut, true);
      assert SegmentArrives(c, seg).sender == s.(segmentsOut := s.segmentsOut, stream := s.stream.(error := true));
    } else {
      var c1 := c.(lingerTime := 0, receiver := Receive(c.receiver, seg));
      var c2 := HandleAck(c1, seg.header);
      if seg.header.ack && s.next != 0 {
        FillAndSendSender(c1.(sender := s));
      }
      assert SenderInv(c2.sender) && Evolves(s, c2.sender);
      var c4 := TryCleanClose(NotePassiveClose(c2));
      ReplySender(c4, seg);
      EvolvesTransitive(s, c2.sender, SegmentArrives(c, seg).sender);
    }
  }

  lemma SendRstSender(c: Connection)
    requires SenderInv(c.sender)
    ensures SenderInv(SendRst(c).sender) && Evolves(c.sender, SendRst(c).sender)
  {
    hide SenderInv;
    hide SendEmpty;
    var s := SendEmpty(c.sender);
    SendEmptyKeepsInv(c.sender);
    CosmeticChange(s, s.segmentsOut, true);
    assert SendRst(c).sender == s.(segmentsOut := s.segmentsOut, stream := s.stream.(error := true));
    EvolvesTransitive(c.sender, s, SendRst(c).sender);
  }

  lemma TickSide(c: Connection, ms: nat)
    requires SenderInv(c.sender)
    ensures SenderInv(Tick(c, ms).sender) && Evolves(c.sender, Tick(c, ms).sender)
  {
    hide SenderInv;
    hide SendRst;
    hide StampAll;
    hide TickSender;
    var s := TickSender(c.sender, ms);
    TickKeepsInv(c.sender, ms);
    CosmeticChange(s, [], s.stream.error);
    var c2 := UpdateQueue(c.(sender := s)).(lingerTime := c.lingerTime + ms);
    assert c2.sender == s.(segmentsOut := [], stream := s.stream.(error := s.stream.error));
    EvolvesTransitive(c.sender, s, c2.sender);
    SendRstSender(c2);
    EvolvesTransitive(c.sender, c2.sender, SendRst(c2).sender);
  }

  /** Every operation but an arrival leaves the sender's history as it is, or extends it. */
  lemma StepSender(c: Connection, op: Op)
    requires SenderInv(c.sender)
    ensures SenderInv(Step(c, op).sender)
    ensures Evolves(if op.Arrive? then AckedSender(c.sender, op.seg.header) else c.sender, Step(c, op).sender)
  {
    hide SenderInv;
    hide FillAndSend;
    hide SegmentArrives;
    hide Tick;
    match op {
      case Connect => FillAndSendSender(c);
      case Write(data) =>
        var s := WriteStream(c.sender, data);
        WriteKeepsInv(c.sender, data);
        FillAndSendSender(c.(sender := s));
        EvolvesTransitive(c.sender, s, Step(c, op).sender);
      case EndInput =>
        var s := EndStream(c.sender);
        WriteKeepsInv(c.sender, []);
        FillAndSendSender(c.(sender := s));
        EvolvesTransitive(c.sender, s, Step(c, op).sender);
      case Arrive(seg) => ArrivalSender(c, seg);
      case Elapse(ms) => TickSide(c, ms);
      case Read(n) =>
      case Collect =>
    }
  }

  // ------------------------------------------------------------------
  // The receiver's side

  /** The receivers agree on everything but the error flag. */
  predicate SameReception(r: Receiver, r': Receiver) {
    r' == r.(reassembler := r.reassembler.(output := r.reassembler.output.(error := r'.reassembler.output.error)))
  }

  /** The receiver that an operation leads to, error flag aside. */
  function NextReceiver(r: Receiver, op: Op): Receiver {
    match op
    case Arrive(seg) => if seg.header.rst then r else Receive(r, seg)
    case Read(n) => ReadOut(r, n)
    case _ => r
  }

  /** The receiver is left alone and the only new acknowledgment is its current one. */
  predicate Acknowledges(c: Connection, c': Connection) {
    && c'.receiver == c.receiver
    && c.acks <= c'.acks <= c.acks + (if c.receiver.synArrived then {CurrentAck(c.receiver)} else {})
  }

  lemma SendingAcknowledges(c: Connection, h: TcpHeader, seg: Segment)
    ensures Acknowledges(c, FillAndSend(c)) && Acknowledges(c, EmptyAndSend(c))
    ensures Acknowledges(c, HandleAck(c, h))
    ensures Acknowledges(c, Reply(c, seg))
  {
    hide Fill;
    hide StampAll;
    hide AckReceived;
    hide SendEmpty;
    hide Wrap;
    hide CurrentAck;
  }

  lemma ArrivalReceiver(c: Connection, seg: Segment)
    requires !seg.header.rst
    ensures Acknowledges(c.(receiver := Receive(c.receiver, seg)), SegmentArrives(c, seg))
  {
    hide Receive;
    hide HandleAck;
    hide Reply;
    hide CurrentAck;
    var c1 := c.(lingerTime := 0, receiver := Receive(c.receiver, seg));
    SendingAcknowledges(c1, seg.header, seg);
    SendingAcknowledges(TryCleanClose(NotePassiveClose(HandleAck(c1, seg.header))), seg.header, seg);
  }

  /** Only arrivals and reads change the receiver, and only its current acknowledgment is sent. */
  lemma StepReceiver(c: Connection, op: Op)
    ensures var c' := Step(c, op);
      && SameReception(NextReceiver(c.receiver, op), c'.receiver)
      && c.acks <= c'.acks
      && c'.acks <= c.acks + (if c'.receiver.synArrived then {CurrentAck(c'.receiver)} else {})
  {
    hide Fill;
    hide Receive;
    hide StampAll;
    hide TickSender;
    hide SendEmpty;
    hide FillAndSend;
    if op.Arrive? {
      if !op.seg.header.rst {
        hide SegmentArrives;
        ArrivalReceiver(c, op.seg);
      }
    } else if op.Write? {
      SendingAcknowledges(c.(sender := WriteStream(c.sender, op.data)), DEFAULT_HEADER, EmptySegment(c.sender));
    } else if op.EndInput? {
      SendingAcknowledges(c.(sender := EndStream(c.sender)), DEFAULT_HEADER, EmptySegment(c.sender));
    } else if op.Connect? {
      SendingAcknowledges(c, DEFAULT_HEADER, EmptySegment(c.sender));
    }
  }

  lemma StepKeepsReceiverInv(c: Connection, op: Op)
    requires ReceiverInv(c.receiver)
    ensures ReceiverInv(Step(c, op).receiver)
  {
    hide Step;
    hide Receive;
    StepReceiver(c, op);
    if op.Arrive? {
      ReceiveKeepsInv(c.receiver, op.seg);
    }
  }

  lemma {:induction false} RunKeepsReceiverInv(c: Connection, ops: seq<Op>)
    requires ReceiverInv(c.receiver)
    ensures ReceiverInv(Run(c, ops).receiver)
    decreases |ops|
  {
    hide Step;
    hide ReceiverInv;
    if ops == [] {
    } else {
      StepKeepsReceiverInv(c, ops[0]);
      RunKeepsReceiverInv(Step(c, ops[0]), ops[1..]);
    }
  }

  lemma NewReceiverInv(capacity: nat)
    ensures ReceiverInv(NewReceiver(capacity))
  {
  }

  // ------------------------------------------------------------------
  // The queues: everything on its way out is in the history

  ghost predicate Logged(log: seq<Sent>, seg: Segment) {
    exists i :: 0 <= i < |log| && SameData(log[i].seg, seg)
  }

  ghost predicate AckKnown(acks: set<AckSent>, isn: u32, h: TcpHeader) {
    h.ack ==> exists a :: a in acks && Wrap(a.ackno, isn) == h.ackno && a.win == h.win
  }

  /** The segment is a copy of one made by this endpoint, with an acknowledgment it has given. */
  ghost predicate Known(c: Connection, seg: Segment) {
    Logged(c.sender.log, seg) && AckKnown(c.acks, c.receiver.isn, seg.header)
  }

  ghost predicate QueueLogged(s: Sender) {
    forall i :: 0 <= i < |s.segmentsOut| ==> Logged(s.log, s.segmentsOut[i]) && !s.segmentsOut[i].header.ack
  }

  ghost predicate QueuesKnown(c: Connection) {
    && QueueLogged(c.sender)
    && (forall i :: 0 <= i < |c.segmentsOut| ==> Known(c, c.segmentsOut[i]))
    && (c.acks != {} ==> c.receiver.synArrived)
  }

  lemma LoggedStays(log: seq<Sent>, log': seq<Sent>, seg: Segment)
    requires Logged(log, seg) && log <= log'
    ensures Logged(log', seg)
  {
    var i :| 0 <= i < |log| && SameData(log[i].seg, seg);
    assert log'[i] == log[i];
  }

  lemma KnownStays(c: Connection, c': Connection, seg: Segment)
    requires Known(c, seg) && c.sender.log <= c'.sender.log && c.acks <= c'.acks
    requires c.acks == {} || c'.receiver.isn == c.receiver.isn
    ensures Known(c', seg)
  {
    LoggedStays(c.sender.log, c'.sender.log, seg);
  }

  lemma AppendLogged(s: Sender, s': Sender, e: Sent)
    requires QueueLogged(s) && !e.seg.header.ack
    requires s'.segmentsOut == s.segmentsOut + [e.seg] && s'.log == s.log + [e]
    ensures QueueLogged(s')
  {
    forall i | 0 <= i < |s'.segmentsOut| ensures Logged(s'.log, s'.segmentsOut[i]) && !s'.segmentsOut[i].header.ack {
      if i < |s.segmentsOut| {
        LoggedStays(s.log, s'.log, s.segmentsOut[i]);
      } else {
        assert s'.log[|s.log|] == e;
      }
    }
  }

  lemma {:induction false} FillQueue(s: Sender, limit: nat)
    requires QueueLogged(s)
    ensures QueueLogged(Fill(s, limit))
    decreases limit - s.next
  {
    hide QueueLogged;
    hide PayloadLength;
    if CanSend(s, limit) {
      var t := SendOne(s, limit);
      AppendLogged(s, t, t.log[|s.log|]);
      FillQueue(t, limit);
    }
  }

  lemma TickQueue(s: Sender, ms: nat)
    requires QueueLogged(s) && SenderInv(s)
    ensures QueueLogged(TickSender(s, ms))
  {
    if Retransmitted(s.timer, ms) != [] {
      var e := s.timer.outstanding[0];
      UnackedInLog(s.log, s.maxAck, e);
      var i :| 0 <= i < |s.log| && s.log[i] == e;
      assert GoodEntry(s, s.log[i]);
      assert SameData(s.log[i].seg, e.seg);
    }
  }

  /** Replacing the sender by one with a longer history keeps what is queued outside known. */
  lemma NewSenderKnown(c: Connection, s: Sender)
    requires QueuesKnown(c) && QueueLogged(s) && c.sender.log <= s.log
    ensures QueuesKnown(c.(sender := s))
  {
    forall i | 0 <= i < |c.segmentsOut| ensures Known(c.(sender := s), c.segmentsOut[i]) {
      KnownStays(c, c.(sender := s), c.segmentsOut[i]);
    }
  }

  lemma UpdateQueueKnown(c: Connection)
    requires QueuesKnown(c)
    ensures QueuesKnown(UpdateQueue(c))
  {
    hide Known;
    hide Logged;
    hide Stamp;
    var c' := UpdateQueue(c);
    var q := c.sender.segmentsOut;
    StampAllAt(c.receiver, q);
    forall i | 0 <= i < |c'.segmentsOut| ensures Known(c', c'.segmentsOut[i]) {
      if i < |c.segmentsOut| {
        KnownStays(c, c', c.segmentsOut[i]);
      } else {
        StampedKnown(c, q[i - |c.segmentsOut|]);
        StampedIsKnown(c, c', q[i - |c.segmentsOut|]);
      }
    }
  }

  lemma StampedIsKnown(c: Connection, c': Connection, seg: Segment)
    requires Logged(c.sender.log, Stamp(c.receiver, seg)) && c'.sender.log == c.sender.log && c'.receiver == c.receiver
    requires AckKnown(c'.acks, c.receiver.isn, Stamp(c.receiver, seg).header)
    ensures Known(c', Stamp(c.receiver, seg))
  {
  }

  lemma {:induction false} StampAllAt(r: Receiver, queue: seq<Segment>)
    ensures |StampAll(r, queue)| == |queue|
    ensures forall i :: 0 <= i < |queue| ==> StampAll(r, queue)[i] == Stamp(r, queue[i])
  {
    if queue == [] {
    } else {
      StampAllAt(r, queue[1..]);
    }
  }

  lemma OneStamp(r: Receiver, seg: Segment)
    ensures StampAll(r, [seg]) == [Stamp(r, seg)]
  {
    assert [seg][1..] == [];
  }

  lemma NoStamp(r: Receiver)
    ensures StampAll(r, []) == []
  {
  }

  lemma StampedKnown(c: Connection, seg: Segment)
    requires Logged(c.sender.log, seg) && !seg.header.ack
    ensures Logged(c.sender.log, Stamp(c.receiver, seg))
    ensures AckKnown(c.acks + (if c.receiver.synArrived then {CurrentAck(c.receiver)} else {}), c.receiver.isn,
                     Stamp(c.receiver, seg).header)
  {
    var i :| 0 <= i < |c.sender.log| && SameData(c.sender.log[i].seg, seg);
    assert SameData(c.sender.log[i].seg, Stamp(c.receiver, seg));
    assert CurrentAck(c.receiver) in c.acks + {CurrentAck(c.receiver)};
  }

  lemma FillAndSendKnown(c: Connection)
    requires QueuesKnown(c) && SenderInv(c.sender)
    ensures QueuesKnown(FillAndSend(c))
  {
    hide QueuesKnown;
    hide SenderInv;
    hide UpdateQueue;
    hide Fill;
    FillQueueKnown(c);
    UpdateQueueKnown(c.(sender := FillWindow(c.sender)));
  }

  lemma FillQueueKnown(c: Connection)
    requires QueuesKnown(c) && SenderInv(c.sender)
    ensures QueuesKnown(c.(sender := FillWindow(c.sender)))
  {
    hide SenderInv;
    hide Fill;
    FillQueue(c.sender, Limit(c.sender));
    FillKeepsInv(c.sender, Limit(c.sender));
    NewSenderKnown(c, FillWindow(c.sender));
  }

  lemma EmptyQueueKnown(c: Connection)
    requires QueuesKnown(c)
    ensures QueuesKnown(c.(sender := SendEmpty(c.sender)))
    ensures QueuesKnown(EmptyAndSend(c))
  {
    AppendLogged(c.sender, SendEmpty(c.sender), Sent(EmptySegment(c.sender), c.sender.next));
    NewSenderKnown(c, SendEmpty(c.sender));
    hide QueuesKnown;
    UpdateQueueKnown(c.(sender := SendEmpty(c.sender)));
  }

  lemma HandleAckKnown(c: Connection, h: TcpHeader)
    requires QueuesKnown(c) && SenderInv(c.sender) && !h.rst
    ensures QueuesKnown(HandleAck(c, h))
  {
    hide SenderInv;
    hide FillAndSend;
    if h.ack {
      var s := AckReceived(c.sender, h.ackno, h.win);
      AckedSenderInv(c.sender, h);
      NewSenderKnown(c, s);
      FillAndSendKnown(c.(sender := s));
    }
  }

  lemma ReplyKnown(c: Connection, seg: Segment)
    requires QueuesKnown(c) && SenderInv(c.sender)
    ensures QueuesKnown(Reply(c, seg))
  {
    hide QueuesKnown;
    hide SenderInv;
    hide FillAndSend;
    hide EmptyAndSend;
    FillAndSendKnown(c);
    EmptyQueueKnown(c);
  }

  /** The peer's initial sequence number is known and stays the same. */
  predicate KeepsIsn(r: Receiver, r': Receiver) {
    r'.synArrived && r'.isn == r.isn
  }

  lemma NewReceiverKnown(c: Connection, r: Receiver)
    requires QueuesKnown(c)
    requires c.acks == {} || KeepsIsn(c.receiver, r)
    ensures QueuesKnown(c.(receiver := r))
  {
    forall i | 0 <= i < |c.segmentsOut| ensures Known(c.(receiver := r), c.segmentsOut[i]) {
      KnownStays(c, c.(receiver := r), c.segmentsOut[i]);
    }
  }

  /** Errors, linger state and activity do not matter to the queues. */
  lemma CosmeticKnown(c: Connection, linger: bool, lingerTime: nat, active: bool)
    requires QueuesKnown(c)
    ensures QueuesKnown(c.(linger := linger, lingerTime := lingerTime, active := active))
    ensures QueuesKnown(SetErrors(c))
  {
    forall i | 0 <= i < |c.segmentsOut|
      ensures Known(c.(linger := linger, lingerTime := lingerTime, active := active), c.segmentsOut[i])
      ensures Known(SetErrors(c), c.segmentsOut[i])
    {
      KnownStays(c, c.(linger := linger, lingerTime := lingerTime, active := active), c.segmentsOut[i]);
      KnownStays(c, SetErrors(c), c.segmentsOut[i]);
    }
  }

  lemma ArrivalKnown(c: Connection, seg: Segment)
    requires QueuesKnown(c) && SenderInv(c.sender)
    requires seg.header.rst || c.acks == {} || KeepsIsn(c.receiver, Receive(c.receiver, seg))
    ensures QueuesKnown(SegmentArrives(c, seg))
  {
    hide QueuesKnown;
    hide SenderInv;
    hide Receive;
    hide Reply;
    hide HandleAck;
    hide SetErrors;
    CosmeticKnown(c, c.linger, 0, c.active);
    var c0 := c.(lingerTime := 0);
    if seg.header.rst {
      CosmeticKnown(c0, c0.linger, 0, c0.active);
    } else {
      var c1 := c0.(receiver := Receive(c.receiver, seg));
      NewReceiverKnown(c0, c1.receiver);
      HandleAckKnown(c1, seg.header);
      var c2 := HandleAck(c1, seg.header);
      var c4 := TryCleanClose(NotePassiveClose(c2));
      HandleAckSender(c1, seg.header);
      CosmeticKnown(c2, c4.linger, c4.lingerTime, c4.active);
      ReplyKnown(c4, seg);
    }
  }

  lemma HandleAckSender(c: Connection, h: TcpHeader)
    requires SenderInv(c.sender) && !h.rst
    ensures SenderInv(HandleAck(c, h).sender)
  {
    hide SenderInv;
    hide FillAndSend;
    AckedSenderInv(c.sender, h);
    FillAndSendSender(c.(sender := AckedSender(c.sender, h)));
  }

  lemma SendRstKnown(c: Connection)
    requires QueuesKnown(c)
    ensures QueuesKnown(SendRst(c))
  {
    hide SetErrors;
    EmptyQueueKnown(c);
    var seg := EmptySegment(c.sender);
    var rst := seg.(header := seg.header.(rst := true));
    var c1 := c.(sender := SendEmpty(c.sender));
    assert SameData(c1.sender.log[|c.sender.log|].seg, rst);
    var c2 := c1.(segmentsOut := [rst]);
    assert QueuesKnown(c2);
    hide QueuesKnown;
    CosmeticKnown(c2, c2.linger, c2.lingerTime, c2.active);
  }

  lemma TickQueueKnown(c: Connection, ms: nat)
    requires QueuesKnown(c) && SenderInv(c.sender)
    ensures QueuesKnown(c.(sender := TickSender(c.sender, ms)))
  {
    hide SenderInv;
    hide QueueLogged;
    TickQueue(c.sender, ms);
    NewSenderKnown(c, TickSender(c.sender, ms));
  }

  lemma TickKnown(c: Connection, ms: nat)
    requires QueuesKnown(c) && SenderInv(c.sender)
    ensures QueuesKnown(Tick(c, ms))
  {
    hide QueuesKnown;
    hide SenderInv;
    hide TickSender;
    hide UpdateQueue;
    hide SendRst;
    var c1 := UpdateQueue(c.(sender := TickSender(c.sender, ms)));
    TickQueueKnown(c, ms);
    UpdateQueueKnown(c.(sender := TickSender(c.sender, ms)));
    CosmeticKnown(c1, c1.linger, c.lingerTime + ms, c1.active);
    CosmeticKnown(c1, c1.linger, c.lingerTime + ms, false);
    SendRstKnown(c1.(lingerTime := c.lingerTime + ms));
  }

  /** Every operation keeps the queues to copies of logged segments with given acknowledgments. */
  lemma StepKnown(c: Connection, op: Op)
    requires QueuesKnown(c) && SenderInv(c.sender)
    requires op.Arrive? ==> op.seg.header.rst || c.acks == {} || KeepsIsn(c.receiver, Receive(c.receiver, op.seg))
    ensures QueuesKnown(Step(c, op))
  {
    hide SenderInv;
    hide FillAndSend;
    hide SegmentArrives;
    hide Tick;
    hide Receive;
    match op {
      case Connect => FillAndSendKnown(c);
      case Write(data) =>
        WriteKeepsInv(c.sender, data);
        NewSenderKnown(c, WriteStream(c.sender, data));
        FillAndSendKnown(c.(sender := WriteStream(c.sender, data)));
      case EndInput =>
        WriteKeepsInv(c.sender, []);
        NewSenderKnown(c, EndStream(c.sender));
        FillAndSendKnown(c.(sender := EndStream(c.sender)));
      case Arrive(seg) => ArrivalKnown(c, seg);
      case Elapse(ms) => TickKnown(c, ms);
      case Read(n) => NewReceiverKnown(c, ReadOut(c.receiver, n));
      case Collect =>
    }
  }
}
