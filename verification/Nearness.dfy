/**
 * How far apart the numbers of a connection are: whatever is not yet superseded is near enough for its
 * 32-bit number to be read right, however long the connection lasts.
 */
module Nearness {
  import opened Numbers
  import opened WrappingIntegers
  import opened Segments
  import opened Reassembly
  import opened Reception
  import opened Sending
  import opened SenderInvariant
  import opened ConnectionSteps
  import opened ConnectionInvariant
  import opened Links
  import opened FlowControl
  import opened Network
  import SenderRuns

  const MAX_WINDOW: nat := 65535

  /** SYN, payload and FIN. */
  const MAX_LENGTH: nat := 1002

  /** A segment as it is made: not longer than the maximum, and no reset. */
  predicate Ordinary(seg: Segment) {
    seg.Length() <= MAX_LENGTH && !seg.header.rst
  }

  /** At most a window is in use beyond the greatest acknowledgment, and all segments made are ordinary. */
  ghost predicate Tight(s: Sender) {
    && s.next <= s.maxAck + MAX_WINDOW
    && (forall i :: 0 <= i < |s.log| ==> Ordinary(s.log[i].seg))
  }

  lemma NextIsOrdinary(s: Sender, limit: nat)
    requires CanSend(s, limit)
    ensures Ordinary(NextSegment(s, limit))
  {
    hide Wrap;
  }

  lemma {:induction false} FillTight(s: Sender, limit: nat)
    requires Tight(s) && limit <= s.maxAck + MAX_WINDOW
    ensures Tight(Fill(s, limit))
    decreases limit - s.next
  {
    hide NextSegment;
    hide PayloadLength;
    if CanSend(s, limit) {
      NextIsOrdinary(s, limit);
      FillTight(SendOne(s, limit), limit);
    }
  }

  lemma FillAndSendTight(c: Connection)
    requires SenderInv(c.sender) && Tight(c.sender)
    ensures Tight(FillAndSend(c).sender)
  {
    hide SenderInv;
    hide Fill;
    hide StampAll;
    SenderRuns.AckBounded(c.sender);
    FillTight(c.sender, Limit(c.sender));
  }

  lemma HandleAckTight(c: Connection, h: TcpHeader)
    requires SenderInv(c.sender) && Tight(c.sender) && !h.rst
    ensures Tight(HandleAck(c, h).sender)
  {
    hide SenderInv;
    hide FillAndSend;
    hide Unwrap;
    hide AckTimer;
    AckedSenderInv(c.sender, h);
    FillAndSendTight(c.(sender := AckedSender(c.sender, h)));
  }

  lemma ReplyTight(c: Connection, seg: Segment)
    requires SenderInv(c.sender) && Tight(c.sender)
    ensures Tight(Reply(c, seg).sender)
  {
    hide SenderInv;
    hide FillAndSend;
    hide StampAll;
    hide Wrap;
    FillAndSendTight(c);
  }

  lemma ArrivalTight(c: Connection, seg: Segment)
    requires SenderInv(c.sender) && Tight(c.sender)
    ensures Tight(SegmentArrives(c, seg).sender)
  {
    hide SenderInv;
    hide Receive;
    hide HandleAck;
    hide Reply;
    if !seg.header.rst {
      var c1 := c.(lingerTime := 0, receiver := Receive(c.receiver, seg));
      HandleAckTight(c1, seg.header);
      HandleAckSender(c1, seg.header);
      ReplyTight(TryCleanClose(NotePassiveClose(HandleAck(c1, seg.header))), seg);
    }
  }

  lemma TickTight(c: Connection, ms: nat)
    requires Tight(c.sender)
    ensures Tight(Tick(c, ms).sender)
  {
    hide StampAll;
    hide Wrap;
    hide TickTimer;
    hide Retransmitted;
  }

  lemma StepTight(c: Connection, op: Op)
    requires SenderInv(c.sender) && Tight(c.sender)
    ensures Tight(Step(c, op).sender)
  {
    hide SenderInv;
    hide FillAndSend;
    hide SegmentArrives;
    hide Tick;
    match op {
      case Connect => FillAndSendTight(c);
      case Write(data) =>
        WriteKeepsInv(c.sender, data);
        FillAndSendTight(c.(sender := WriteStream(c.sender, data)));
      case EndInput =>
        WriteKeepsInv(c.sender, []);
        FillAndSendTight(c.(sender := EndStream(c.sender)));
      case Arrive(seg) => ArrivalTight(c, seg);
      case Elapse(ms) => TickTight(c, ms);
      case Read(n) =>
      case Collect =>
    }
  }

  ghost predicate BothTight(w: World) {
    SenderInv(w.a.sender) && SenderInv(w.b.sender) && Tight(w.a.sender) && Tight(w.b.sender)
  }

  lemma {:induction false} ExecTight(w: World, events: seq<Event>)
    requires BothTight(w)
    ensures BothTight(Exec(w, events))
    decreases |events|
  {
    hide SenderInv;
    hide Tight;
    hide Step;
    if events == [] {
    } else {
      var c, op := if events[0].side.A? then w.a else w.b, events[0].op;
      StepSender(c, op);
      StepTight(c, op);
      ExecTight(Apply(w, events[0]), events[1..]);
    }
  }

  /** In every reachable state both senders are tight. */
  lemma ReachableTight(w: World)
    requires Reachable(w)
    ensures BothTight(w)
  {
    hide Legal;
    hide Exec;
    var w0: World, events: seq<Event> :| Initial(w0) && Legal(w0, events) && w == Exec(w0, events);
    InitialTight(w0);
    ExecTight(w0, events);
  }

  lemma InitialTight(w: World)
    requires Initial(w)
    ensures BothTight(w)
  {
  }

  // ------------------------------------------------------------------
  // What may be delivered

  /** In every reachable state below 2^64 a segment that is not acknowledged to beyond its end is near the ackno. */
  lemma RecentIsNear(w: World, i: nat)
    requires Reachable(w) && w.a.sender.next < TWO64
    requires i < |w.a.sender.log| && w.a.sender.maxAck <= w.a.sender.log[i].end
    ensures Near(w.a.sender.log[i].Start(), w.b.receiver.ackno)
  {
    hide Flow;
    hide NetKnown;
    hide Link;
    hide SenderInv;
    hide CarriesStream;
    hide Reachable;
    ReachableInv(w);
    ReachableTight(w);
    AcknoBounded(w.a.sender, w.b.receiver, w.b.acks);
    EntryIsGood(w.a.sender, w.b.receiver, w.b.acks, i);
  }

  /** So is an acknowledgment that is not older than one accepted, to the sender's next number. */
  lemma RecentAckIsNear(w: World, x: AckSent)
    requires Reachable(w) && w.b.sender.next < TWO64 && x in w.a.acks && w.b.sender.maxAck <= x.ackno
    ensures Near(x.ackno, w.b.sender.next)
  {
    hide Flow;
    hide NetKnown;
    hide SenderInv;
    hide ReceiverInv;
    hide Safe;
    hide Reachable;
    ReachableInv(w);
    ReachableTight(w);
    assert Link(w.b.sender, w.a.receiver, w.a.acks);
    hide Link;
    AcknoBounded(w.b.sender, w.a.receiver, w.a.acks);
  }

  /** A copy of a logged segment, with an acknowledgment that was given. */
  ghost predicate CopyOf(w: World, i: nat, x: AckSent, seg: Segment)
    requires i < |w.a.sender.log|
  {
    && SameData(w.a.sender.log[i].seg, seg)
    && (seg.header.ack ==>
          x in w.a.acks && Wrap(x.ackno, w.a.receiver.isn) == seg.header.ackno && x.win == seg.header.win)
  }

  /**
   * However long the connection lasts, up to 2^64 numbers: the network may deliver every copy whose data
   * is not acknowledged to beyond its end, and whose acknowledgment is not older than one accepted. So
   * the restriction on deliveries keeps out nothing but superseded copies.
   */
  lemma RecentIsDeliverable(w: World, i: nat, x: AckSent, seg: Segment)
    requires Reachable(w) && w.a.sender.next < TWO64 && w.b.sender.next < TWO64
    requires i < |w.a.sender.log| && CopyOf(w, i, x, seg)
    requires w.a.sender.maxAck <= w.a.sender.log[i].end && w.b.sender.maxAck <= x.ackno
    ensures Deliverable(w.a, w.b, seg)
  {
    hide Reachable;
    hide Near;
    hide Wrap;
    RecentIsNear(w, i);
    if seg.header.ack {
      RecentAckIsNear(w, x);
    }
  }

  // ------------------------------------------------------------------
  // Progress

  /** In every reachable state the oldest outstanding segment starts at or before the receiver's ackno. */
  lemma OldestConnects(w: World)
    requires Reachable(w) && w.a.sender.timer.outstanding != []
    ensures w.a.sender.timer.outstanding[0].Start() <= w.b.receiver.ackno
  {
    hide Link;
    hide Flow;
    hide NetKnown;
    ReachableInv(w);
    LinkSenderInv(w.a.sender, w.b.receiver, w.b.acks);
    OldestIsGood(w.a.sender);
    AcknoBounded(w.a.sender, w.b.receiver, w.b.acks);
  }

  /** The oldest outstanding segment is in the log, beyond every accepted acknowledgment. */
  lemma OldestIsRecent(s: Sender) returns (i: nat)
    requires SenderInv(s) && s.timer.outstanding != []
    ensures i < |s.log| && s.log[i] == s.timer.outstanding[0] && s.maxAck <= s.log[i].end
  {
    hide NumberInv;
    hide LogInv;
    hide Tiles;
    UnackedInLog(s.log, s.maxAck, s.timer.outstanding[0]);
    i :| 0 <= i < |s.log| && s.log[i] == s.timer.outstanding[0];
  }

  /**
   * In every reachable state, up to 2^64 numbers, delivering the oldest outstanding segment to an open
   * window that is large enough acknowledges it.
   */
  lemma OldestIsAcknowledged(w: World, seg: Segment)
    requires Reachable(w) && w.a.sender.next < TWO64 && w.a.sender.timer.outstanding != []
    requires SameData(w.a.sender.timer.outstanding[0].seg, seg)
    requires w.b.receiver.WindowSize() > 0 && |seg.payload| <= w.b.receiver.WindowSize()
    ensures w.a.sender.timer.outstanding[0].end <= Receive(w.b.receiver, seg).ackno
  {
    hide Link;
    hide Flow;
    hide NetKnown;
    hide Receive;
    hide SenderInv;
    hide Near;
    ReachableInv(w);
    LinkSenderInv(w.a.sender, w.b.receiver, w.b.acks);
    var i := OldestIsRecent(w.a.sender);
    RecentIsNear(w, i);
    OldestIsGood(w.a.sender);
    OldestMakesProgress(w.a.sender, w.b.receiver, w.b.acks, seg);
  }
}
