/** What an endpoint puts out: the segments it makes, in order, and the oldest one again on a timeout. */
module Outgoing {
  import opened Numbers
  import opened WrappingIntegers
  import opened Segments
  import opened Reception
  import opened Sending
  import opened SenderInvariant
  import opened ConnectionSteps
  import opened ConnectionInvariant
  import SenderRuns
  import CleanClose

  function SegmentsOf(q: seq<Sent>): seq<Segment> {
    if q == [] then [] else [q[0].seg] + SegmentsOf(q[1..])
  }

  lemma {:induction false} SegmentsAt(q: seq<Sent>)
    ensures |SegmentsOf(q)| == |q|
    ensures forall i :: 0 <= i < |q| ==> SegmentsOf(q)[i] == q[i].seg
  {
    if q == [] {
    } else {
      SegmentsAt(q[1..]);
    }
  }

  lemma {:induction false} SegmentsConcat(a: seq<Sent>, b: seq<Sent>)
    ensures SegmentsOf(a + b) == SegmentsOf(a) + SegmentsOf(b)
  {
    if a == [] {
      assert a + b == b;
    } else {
      assert (a + b)[1..] == a[1..] + b;
      SegmentsConcat(a[1..], b);
    }
  }

  lemma {:induction false} StampConcat(r: Receiver, a: seq<Segment>, b: seq<Segment>)
    ensures StampAll(r, a + b) == StampAll(r, a) + StampAll(r, b)
  {
    hide Stamp;
    if a == [] {
      assert a + b == b;
    } else {
      assert (a + b)[1..] == a[1..] + b;
      StampConcat(r, a[1..], b);
    }
  }

  /** What is new in a longer sequence. */
  function Added<T>(before: seq<T>, after: seq<T>): seq<T>
    requires before <= after
  {
    after[|before|..]
  }

  lemma AddedInTwo<T>(a: seq<T>, b: seq<T>, c: seq<T>)
    requires a <= b <= c
    ensures a <= c && Added(a, c) == Added(a, b) + Added(b, c)
  {
    assert c[|a|..] == b[|a|..] + c[|b|..];
  }

  // ------------------------------------------------------------------
  // The sender

  /** Everything made between the two states is queued, in order, and nothing else. */
  predicate Queues(s: Sender, s': Sender) {
    s.log <= s'.log && s'.segmentsOut == s.segmentsOut + SegmentsOf(Added(s.log, s'.log))
  }

  lemma QueuesInTwo(s: Sender, t: Sender, u: Sender)
    requires Queues(s, t) && Queues(t, u)
    ensures Queues(s, u)
  {
    hide SegmentsOf;
    hide Added;
    AddedInTwo(s.log, t.log, u.log);
    var a, b := SegmentsOf(Added(s.log, t.log)), SegmentsOf(Added(t.log, u.log));
    SegmentsConcat(Added(s.log, t.log), Added(t.log, u.log));
    assert (s.segmentsOut + a) + b == s.segmentsOut + (a + b);
  }

  lemma OneQueued(s: Sender, s': Sender, e: Sent)
    requires s'.log == s.log + [e] && s'.segmentsOut == s.segmentsOut + [e.seg]
    ensures Queues(s, s')
  {
    assert Added(s.log, s'.log) == [e];
  }

  lemma NothingQueued(s: Sender)
    ensures Queues(s, s)
  {
    assert Added(s.log, s.log) == [];
  }

  /** A fill queues every segment it makes, payload or not, in the order of their numbers. */
  lemma {:induction false} FillQueuesAll(s: Sender, limit: nat)
    ensures Queues(s, Fill(s, limit))
    decreases limit - s.next
  {
    hide Queues;
    hide NextSegment;
    hide PayloadLength;
    if CanSend(s, limit) {
      var t := SendOne(s, limit);
      OneQueued(s, t, t.log[|s.log|]);
      FillQueuesAll(t, limit);
      QueuesInTwo(s, t, Fill(s, limit));
    } else {
      NothingQueued(s);
    }
  }

  lemma EmptyQueues(s: Sender)
    ensures Queues(s, SendEmpty(s))
  {
    hide Queues;
    OneQueued(s, SendEmpty(s), Sent(EmptySegment(s), s.next));
  }

  /** Every segment of a fill but the last carries as much as a segment can. */
  lemma {:induction false} FillPacks(s: Sender, limit: nat, i: nat)
    requires s.log <= Fill(s, limit).log && |s.log| <= i < |Fill(s, limit).log| - 1
    ensures |Fill(s, limit).log[i].seg.payload| == 1000
    decreases limit - s.next
  {
    hide Wrap;
    if CanSend(s, limit) {
      var t := SendOne(s, limit);
      FillExtends(t, limit);
      if i > |s.log| {
        FillPacks(t, limit, i);
      } else {
        SendOnePacks(s, limit);
      }
    }
  }

  lemma FillExtends(s: Sender, limit: nat)
    ensures s.log <= Fill(s, limit).log
  {
    FillQueuesAll(s, limit);
  }

  lemma SendOnePacks(s: Sender, limit: nat)
    requires CanSend(s, limit) && CanSend(SendOne(s, limit), limit)
    ensures |NextSegment(s, limit).payload| == MAX_PAYLOAD_SIZE
  {
    hide Wrap;
  }

  // ------------------------------------------------------------------
  // The endpoint

  /** Everything made between the two states goes out, in order, with the current acknowledgment on it. */
  predicate Sends(c: Connection, c': Connection) {
    && c.sender.log <= c'.sender.log && c'.sender.segmentsOut == []
    && c'.segmentsOut == c.segmentsOut + StampAll(c'.receiver, SegmentsOf(Added(c.sender.log, c'.sender.log)))
  }

  lemma SendsInTwo(c: Connection, d: Connection, e: Connection)
    requires Sends(c, d) && Sends(d, e) && d.receiver == e.receiver
    ensures Sends(c, e)
  {
    hide SegmentsOf;
    hide StampAll;
    hide Added;
    AddedInTwo(c.sender.log, d.sender.log, e.sender.log);
    var a, b := SegmentsOf(Added(c.sender.log, d.sender.log)), SegmentsOf(Added(d.sender.log, e.sender.log));
    SegmentsConcat(Added(c.sender.log, d.sender.log), Added(d.sender.log, e.sender.log));
    StampConcat(e.receiver, a, b);
    var x, y := StampAll(e.receiver, a), StampAll(e.receiver, b);
    assert (c.segmentsOut + x) + y == c.segmentsOut + (x + y);
  }

  lemma NothingSent(c: Connection, c': Connection)
    requires c.sender.segmentsOut == [] && c'.sender.segmentsOut == []
    requires c'.sender.log == c.sender.log && c'.segmentsOut == c.segmentsOut
    ensures Sends(c, c')
  {
    assert Added(c.sender.log, c'.sender.log) == [];
  }

  lemma UpdateSends(c: Connection, s: Sender)
    requires c.sender.segmentsOut == [] && Queues(c.sender, s)
    ensures Sends(c, UpdateQueue(c.(sender := s)))
  {
    hide StampAll;
    assert s.segmentsOut == SegmentsOf(Added(c.sender.log, s.log));
  }

  lemma FillAndSendSends(c: Connection, s: Sender)
    requires c.sender.segmentsOut == [] && s.segmentsOut == [] && s.log == c.sender.log
    ensures Sends(c, FillAndSend(c.(sender := s)))
  {
    hide Fill;
    hide StampAll;
    hide Sends;
    FillQueuesAll(s, Limit(s));
    UpdateSends(c, FillWindow(s));
  }

  lemma EmptyAndSendSends(c: Connection)
    requires c.sender.segmentsOut == []
    ensures Sends(c, EmptyAndSend(c))
  {
    hide SendEmpty;
    hide StampAll;
    hide Sends;
    EmptyQueues(c.sender);
    UpdateSends(c, SendEmpty(c.sender));
  }

  lemma HandleAckSends(c: Connection, h: TcpHeader)
    requires c.sender.segmentsOut == []
    ensures Sends(c, HandleAck(c, h)) && HandleAck(c, h).receiver == c.receiver
  {
    hide FillAndSend;
    hide Sends;
    hide Unwrap;
    var s := AckReceived(c.sender, h.ackno, h.win);
    FillAndSendSends(c, s);
    NothingSent(c, c);
    NothingSent(c, c.(sender := s));
    SendingAcknowledges(c.(sender := s), h, Segment(h, []));
  }

  lemma ReplySends(c: Connection, seg: Segment)
    requires c.sender.segmentsOut == []
    ensures Sends(c, Reply(c, seg)) && Reply(c, seg).receiver == c.receiver
  {
    hide FillAndSend;
    hide EmptyAndSend;
    hide Sends;
    hide Wrap;
    FillAndSendSends(c, c.sender);
    EmptyAndSendSends(c);
    NothingSent(c, c);
    SendingAcknowledges(c, seg.header, seg);
  }

  lemma ArrivalSends(c: Connection, seg: Segment)
    requires c.sender.segmentsOut == [] && !seg.header.rst
    ensures Sends(c, SegmentArrives(c, seg)) && SegmentArrives(c, seg).receiver == Receive(c.receiver, seg)
  {
    hide Receive;
    hide HandleAck;
    hide Reply;
    var c1 := c.(lingerTime := 0, receiver := Receive(c.receiver, seg));
    var c2 := HandleAck(c1, seg.header);
    HandleAckSends(c1, seg.header);
    var c4 := TryCleanClose(NotePassiveClose(c2));
    ReplySends(c4, seg);
    SendsInTwo(c1, c4, Reply(c4, seg));
  }

  /** The tick passes the retransmission limit. */
  predicate GivesUp(c: Connection, op: Op) {
    op.Elapse? && TickSender(c.sender, op.ms).timer.retransmissions > MAX_RETX_ATTEMPTS
  }

  /** The operation leaves the queue to the network to grow: no reset, and no one takes it away. */
  predicate Grows(c: Connection, op: Op) {
    !op.Collect? && !GivesUp(c, op) && !(op.Arrive? && op.seg.header.rst)
  }

  /**
   * Every operation but a tick, a reset and `Collect` puts out exactly the segments it makes, in the
   * order in which they are made, each with the acknowledgment and the window of the receiver after it.
   */
  lemma StepSends(c: Connection, op: Op)
    requires c.sender.segmentsOut == [] && Grows(c, op) && !op.Elapse?
    ensures Sends(c, Step(c, op))
  {
    hide FillAndSend;
    hide SegmentArrives;
    hide Sends;
    match op {
      case Connect => FillAndSendSends(c, c.sender);
      case Write(data) => FillAndSendSends(c, WriteStream(c.sender, data));
      case EndInput => FillAndSendSends(c, EndStream(c.sender));
      case Arrive(seg) => ArrivalSends(c, seg);
      case Read(n) => NothingSent(c, Step(c, op));
    }
  }

  // ------------------------------------------------------------------
  // Timeouts

  /** The entry of the history that holds the first number not acknowledged. */
  ghost predicate HoldsFirstUnacked(s: Sender, e: Sent) {
    e in s.log && e.seg.Length() > 0 && e.Start() <= s.maxAck < e.end
  }

  /** There is one exactly while something is in flight: the front of the queue, which starts the flight. */
  lemma FirstUnacked(s: Sender)
    requires SenderInv(s)
    ensures s.inFlight > 0 <==> s.timer.outstanding != []
    ensures s.timer.running <==> s.inFlight > 0
    ensures s.inFlight > 0 ==>
              var e := s.timer.outstanding[0]; HoldsFirstUnacked(s, e) && e.Start() == s.next - s.inFlight
    ensures s.inFlight == 0 ==> forall e :: !HoldsFirstUnacked(s, e)
  {
    hide NumberInv;
    hide LogInv;
    hide Tiles;
    hide Unacked;
    hide TotalLength;
    var q := s.timer.outstanding;
    if q != [] {
      UnackedInLog(s.log, s.maxAck, q[0]);
      SenderRuns.TilesAt(q, s.next - s.inFlight, s.next, 0);
    } else {
      SenderRuns.EmptyLength();
      forall e ensures !HoldsFirstUnacked(s, e) {
        UnackedInLog(s.log, s.maxAck, e);
      }
    }
  }

  /** No two entries that take up numbers hold the same one. */
  lemma FirstUnackedIsUnique(s: Sender, e: Sent, f: Sent)
    requires SenderInv(s) && HoldsFirstUnacked(s, e) && HoldsFirstUnacked(s, f)
    ensures e == f
  {
    hide LogInv;
    hide QueueInv;
    hide Tiles;
    hide Payloads;
    var i :| 0 <= i < |s.log| && s.log[i] == e;
    var j :| 0 <= j < |s.log| && s.log[j] == f;
    if i < j {
      SenderRuns.TilesOrdered(s.log, 0, s.next, i, j);
    } else if j < i {
      SenderRuns.TilesOrdered(s.log, 0, s.next, j, i);
    }
  }

  /**
   * A tick makes no new segment. If the timeout passes while something is in flight, it puts out one
   * segment again: the one that holds the first number not acknowledged, with the current
   * acknowledgment on it. Otherwise it puts out nothing.
   */
  lemma TickSends(c: Connection, ms: nat)
    requires SenderInv(c.sender) && c.sender.segmentsOut == [] && !GivesUp(c, Elapse(ms))
    ensures var c' := Step(c, Elapse(ms));
      && c'.sender.log == c.sender.log && c'.sender.segmentsOut == []
      && (c.sender.inFlight > 0 && c.sender.timer.rto <= ms ==>
            exists e :: HoldsFirstUnacked(c.sender, e) && e.Start() == c.sender.next - c.sender.inFlight
                        && c'.segmentsOut == c.segmentsOut + [Stamp(c.receiver, e.seg)])
      && (!(c.sender.inFlight > 0 && c.sender.timer.rto <= ms) ==> c'.segmentsOut == c.segmentsOut)
  {
    hide SenderInv;
    hide TickTimer;
    hide HoldsFirstUnacked;
    hide StampAll;
    hide Stamp;
    FirstUnacked(c.sender);
    TickOutput(c, ms);
    var q := c.sender.timer.outstanding;
    if c.sender.inFlight > 0 && c.sender.timer.rto <= ms {
      OneStamp(c.receiver, q[0].seg);
      assert HoldsFirstUnacked(c.sender, q[0]);
    } else {
      NoStamp(c.receiver);
    }
  }

  lemma TickOutput(c: Connection, ms: nat)
    requires c.sender.segmentsOut == [] && !GivesUp(c, Elapse(ms))
    ensures var c' := Step(c, Elapse(ms));
      && c'.sender.log == c.sender.log && c'.sender.segmentsOut == []
      && c'.segmentsOut == c.segmentsOut + StampAll(c.receiver, Retransmitted(c.sender.timer, ms))
  {
    hide TickTimer;
    hide Retransmitted;
    hide StampAll;
    assert [] + Retransmitted(c.sender.timer, ms) == Retransmitted(c.sender.timer, ms);
  }

  // ------------------------------------------------------------------
  // The queue of the sender is empty between operations

  /** Giving up leaves the reset in the sender's own queue as well; nothing else does. */
  predicate Flushed(c: Connection) {
    c.active || !c.Outbound().error ==> c.sender.segmentsOut == []
  }

  /** An endpoint that is active or unbroken after an operation was so before, and the operation is no reset. */
  lemma StaysAlive(c: Connection, op: Op)
    requires Step(c, op).active || !Step(c, op).Outbound().error
    ensures c.active || !c.Outbound().error
    ensures !GivesUp(c, op) && !(op.Arrive? && op.seg.header.rst)
  {
    hide Fill;
    hide StampAll;
    hide HandleAck;
    hide Reply;
    hide Receive;
    hide TickTimer;
    hide Retransmitted;
    hide Wrap;
    match op {
      case Connect => SenderRuns.FillGrows(c.sender, Limit(c.sender));
      case Write(data) => SenderRuns.FillGrows(WriteStream(c.sender, data), Limit(c.sender));
      case EndInput => SenderRuns.FillGrows(EndStream(c.sender), Limit(c.sender));
      case Arrive(seg) => ArrivalStaysAlive(c, seg);
      case Elapse(ms) =>
      case Read(n) =>
      case Collect =>
    }
  }

  lemma ArrivalStaysAlive(c: Connection, seg: Segment)
    requires SegmentArrives(c, seg).active || !SegmentArrives(c, seg).Outbound().error
    ensures (c.active || !c.Outbound().error) && !seg.header.rst
  {
    hide HandleAck;
    hide Reply;
    hide Receive;
    if !seg.header.rst {
      var c1 := c.(lingerTime := 0, receiver := Receive(c.receiver, seg));
      CleanClose.AckFlags(c1, seg.header, seg);
      CleanClose.HandleAckKeepsRest(c1, seg.header);
      var c4 := TryCleanClose(NotePassiveClose(HandleAck(c1, seg.header)));
      CleanClose.AckFlags(c4, seg.header, seg);
      CleanClose.ReplyKeepsRest(c4, seg);
    }
  }

  lemma StepFlushes(c: Connection, op: Op)
    requires SenderInv(c.sender) && Flushed(c)
    ensures Flushed(Step(c, op))
  {
    hide SenderInv;
    hide Step;
    hide GivesUp;
    if Step(c, op).active || !Step(c, op).Outbound().error {
      StaysAlive(c, op);
      if op.Elapse? {
        TickSends(c, op.ms);
      } else if op.Collect? {
        CollectKeepsQueue(c);
      } else {
        StepSends(c, op);
      }
    }
  }

  lemma CollectKeepsQueue(c: Connection)
    ensures Step(c, Collect) == c.(segmentsOut := [])
  {
  }

  lemma {:induction false} RunFlushes(c: Connection, ops: seq<Op>)
    requires SenderInv(c.sender) && Flushed(c)
    ensures SenderInv(Run(c, ops).sender) && Flushed(Run(c, ops))
    decreases |ops|
  {
    hide SenderInv;
    hide Flushed;
    hide Step;
    if ops == [] {
    } else {
      StepSender(c, ops[0]);
      StepFlushes(c, ops[0]);
      RunFlushes(Step(c, ops[0]), ops[1..]);
    }
  }

  // ------------------------------------------------------------------
  // Acknowledging

  /** The segment carries the acknowledgment and the 16-bit window of the receiver. */
  predicate Acks(r: Receiver, seg: Segment) {
    seg.header.ack && seg.header.ackno == Wrap(r.ackno, r.isn) && seg.header.win == r.WindowSize() % TWO16
  }

  lemma StampAcks(r: Receiver, seg: Segment)
    requires r.synArrived
    ensures Acks(r, Stamp(r, seg)) && SameData(seg, Stamp(r, seg)) && Stamp(r, seg).Length() == seg.Length()
  {
    hide Wrap;
  }

  /** What is new in the queue is a stamped copy of what is new in the history. */
  lemma SentAt(c: Connection, c': Connection, i: nat)
    requires Sends(c, c') && |c.segmentsOut| <= i < |c'.segmentsOut|
    ensures |c.sender.log| + i - |c.segmentsOut| < |c'.sender.log|
    ensures c'.segmentsOut[i] == Stamp(c'.receiver, c'.sender.log[|c.sender.log| + i - |c.segmentsOut|].seg)
  {
    hide Stamp;
    var added := Added(c.sender.log, c'.sender.log);
    SegmentsAt(added);
    StampAllAt(c'.receiver, SegmentsOf(added));
  }

  lemma SentLength(c: Connection, c': Connection)
    requires Sends(c, c')
    ensures |c'.segmentsOut| - |c.segmentsOut| == |c'.sender.log| - |c.sender.log|
    ensures c.segmentsOut <= c'.segmentsOut
  {
    hide Stamp;
    SegmentsAt(Added(c.sender.log, c'.sender.log));
    StampAllAt(c'.receiver, SegmentsOf(Added(c.sender.log, c'.sender.log)));
  }

  /** What is new in the queue carries the acknowledgment of the receiver. */
  ghost predicate AllAck(c: Connection, c': Connection) {
    && c'.receiver == c.receiver && c.segmentsOut <= c'.segmentsOut
    && (forall i :: |c.segmentsOut| <= i < |c'.segmentsOut| ==> Acks(c.receiver, c'.segmentsOut[i]))
    && c.acks <= c'.acks
    && (c.segmentsOut < c'.segmentsOut ==> CurrentAck(c.receiver) in c'.acks)
  }

  lemma UpdateAcks(c: Connection)
    requires c.receiver.synArrived
    ensures AllAck(c, UpdateQueue(c))
    ensures c.sender.segmentsOut != [] ==> c.segmentsOut < UpdateQueue(c).segmentsOut
  {
    hide Acks;
    hide Stamp;
    var q := c.sender.segmentsOut;
    StampAllAt(c.receiver, q);
    forall i | |c.segmentsOut| <= i < |UpdateQueue(c).segmentsOut|
      ensures Acks(c.receiver, UpdateQueue(c).segmentsOut[i])
    {
      StampAcks(c.receiver, q[i - |c.segmentsOut|]);
    }
  }

  lemma HandleAckAcks(c: Connection, h: TcpHeader)
    requires c.receiver.synArrived
    ensures AllAck(c, HandleAck(c, h))
  {
    hide UpdateQueue;
    hide Acks;
    hide Unwrap;
    hide Fill;
    var s := AckReceived(c.sender, h.ackno, h.win);
    UpdateAcks(c.(sender := FillWindow(s)));
  }

  /** The reply puts something out whenever the arriving segment takes up numbers. */
  lemma ReplyAcks(c: Connection, seg: Segment)
    requires SenderInv(c.sender) && c.receiver.synArrived
    ensures AllAck(c, Reply(c, seg))
    ensures seg.Length() > 0 ==> c.segmentsOut < Reply(c, seg).segmentsOut
  {
    hide SenderInv;
    hide UpdateQueue;
    hide Acks;
    hide Wrap;
    hide Fill;
    UpdateAcks(c.(sender := FillWindow(c.sender)));
    UpdateAcks(c.(sender := SendEmpty(c.sender)));
    if c.sender.next == 0 {
      SynIsQueued(c.sender);
    }
  }

  lemma SynIsQueued(s: Sender)
    requires SenderInv(s) && s.next == 0
    ensures FillWindow(s).segmentsOut != []
  {
    hide LogInv;
    hide QueueInv;
    hide Tiles;
    hide Payloads;
    hide NextSegment;
    hide PayloadLength;
    assert CanSend(s, Limit(s));
    FillQueuesAll(SendOne(s, Limit(s)), Limit(s));
  }

  /**
   * Whatever takes up sequence numbers is acknowledged: the arrival puts out at least one segment, and
   * all that it puts out carry the acknowledgment and the window of the receiver after it.
   */
  lemma ArrivalIsAcknowledged(c: Connection, seg: Segment)
    requires SenderInv(c.sender) && !seg.header.rst && seg.Length() > 0
    requires Receive(c.receiver, seg).synArrived
    ensures var out, r := Step(c, Arrive(seg)).segmentsOut, Receive(c.receiver, seg);
      && c.segmentsOut < out
      && (forall i :: |c.segmentsOut| <= i < |out| ==> Acks(r, out[i]))
      && CurrentAck(r) in Step(c, Arrive(seg)).acks
  {
    hide SenderInv;
    hide Receive;
    hide HandleAck;
    hide Reply;
    hide Acks;
    hide CurrentAck;
    var c1 := c.(lingerTime := 0, receiver := Receive(c.receiver, seg));
    HandleAckAcks(c1, seg.header);
    HandleAckSender(c1, seg.header);
    ReplyAcks(TryCleanClose(NotePassiveClose(HandleAck(c1, seg.header))), seg);
  }

  /** The segment asks for a sign of life: it is empty, and its number is the one before the acknowledgment. */
  predicate IsProbe(r: Receiver, seg: Segment) {
    seg.Length() == 0 && seg.header.seqno == (Wrap(r.ackno, r.isn) - 1) % TWO32
  }

  /** Some new entry of the history takes up no numbers. */
  ghost predicate MakesEmpty(s: Sender, s': Sender) {
    exists i :: |s.log| <= i < |s'.log| && s'.log[i].seg.Length() == 0
  }

  lemma {:induction false} FillMakesNoEmpty(s: Sender, limit: nat)
    ensures s.log <= Fill(s, limit).log && !MakesEmpty(s, Fill(s, limit))
    decreases limit - s.next
  {
    hide NextSegment;
    hide PayloadLength;
    if CanSend(s, limit) {
      FillMakesNoEmpty(SendOne(s, limit), limit);
    }
  }

  lemma HandleAckMakesNoEmpty(c: Connection, h: TcpHeader)
    ensures c.sender.log <= HandleAck(c, h).sender.log && !MakesEmpty(c.sender, HandleAck(c, h).sender)
    ensures HandleAck(c, h).receiver == c.receiver
  {
    hide Fill;
    hide StampAll;
    hide Unwrap;
    var s := AckReceived(c.sender, h.ackno, h.win);
    FillMakesNoEmpty(s, Limit(s));
  }

  /**
   * An empty segment is made in reply exactly to what takes up numbers, unless it is answered with our
   * SYN, and to probes.
   */
  predicate WantsEmpty(c: Connection, r: Receiver, seg: Segment) {
    r.synArrived && (IsProbe(r, seg) || (seg.Length() > 0 && !(c.sender.next == 0 && seg.header.syn)))
  }

  lemma ReplyMakesEmpty(c: Connection, seg: Segment)
    ensures c.sender.log <= Reply(c, seg).sender.log
    ensures MakesEmpty(c.sender, Reply(c, seg).sender) <==> WantsEmpty(c, c.receiver, seg)
  {
    hide Fill;
    hide StampAll;
    hide Wrap;
    FillMakesNoEmpty(c.sender, Limit(c.sender));
    var log' := SendEmpty(c.sender).log;
    assert log'[|c.sender.log|].seg.Length() == 0;
  }

  lemma MakesEmptyInTwo(s: Sender, t: Sender, u: Sender)
    requires s.log <= t.log <= u.log
    ensures MakesEmpty(s, u) <==> MakesEmpty(s, t) || MakesEmpty(t, u)
  {
    if MakesEmpty(s, t) {
      var i :| |s.log| <= i < |t.log| && t.log[i].seg.Length() == 0;
      assert u.log[i] == t.log[i];
    }
    if MakesEmpty(s, u) {
      var i :| |s.log| <= i < |u.log| && u.log[i].seg.Length() == 0;
      assert i < |t.log| ==> t.log[i] == u.log[i];
    }
  }

  lemma NextUnchangedAtZero(c: Connection, h: TcpHeader)
    ensures HandleAck(c, h).sender.next == 0 <==> c.sender.next == 0
  {
    hide StampAll;
    hide Unwrap;
    hide Fill;
    var s := AckReceived(c.sender, h.ackno, h.win);
    FillNext(s, Limit(s));
  }

  lemma {:induction false} FillNext(s: Sender, limit: nat)
    ensures s.next <= Fill(s, limit).next
    decreases limit - s.next
  {
    hide SendOne;
    if CanSend(s, limit) {
      FillNext(SendOne(s, limit), limit);
    }
  }

  /**
   * An arriving segment is answered with an empty one exactly if it takes up numbers and is not
   * answered with our SYN, or if it is a probe.
   */
  lemma EmptyReplyExactly(c: Connection, seg: Segment)
    requires c.sender.segmentsOut == [] && !seg.header.rst
    ensures var out, r := Step(c, Arrive(seg)).segmentsOut, Receive(c.receiver, seg);
      && c.segmentsOut <= out
      && ((exists i :: |c.segmentsOut| <= i < |out| && out[i].Length() == 0) <==> WantsEmpty(c, r, seg))
  {
    hide Receive;
    hide HandleAck;
    hide Reply;
    hide MakesEmpty;
    hide Sends;
    hide IsProbe;
    var c1 := c.(lingerTime := 0, receiver := Receive(c.receiver, seg));
    var c2 := HandleAck(c1, seg.header);
    var c4 := TryCleanClose(NotePassiveClose(c2));
    HandleAckMakesNoEmpty(c1, seg.header);
    NextUnchangedAtZero(c1, seg.header);
    ReplyMakesEmpty(c4, seg);
    MakesEmptyInTwo(c.sender, c2.sender, Reply(c4, seg).sender);
    ArrivalSends(c, seg);
    EmptiesAreSent(c, Step(c, Arrive(seg)));
  }

  /** The new entries and the new segments in the queue correspond. */
  lemma EmptiesAreSent(c: Connection, c': Connection)
    requires Sends(c, c')
    ensures c.segmentsOut <= c'.segmentsOut
    ensures MakesEmpty(c.sender, c'.sender) <==>
              exists i :: |c.segmentsOut| <= i < |c'.segmentsOut| && c'.segmentsOut[i].Length() == 0
  {
    hide Sends;
    SentLength(c, c');
    forall i | |c.segmentsOut| <= i < |c'.segmentsOut|
      ensures c'.segmentsOut[i].Length() == c'.sender.log[|c.sender.log| + i - |c.segmentsOut|].seg.Length()
    {
      SentAt(c, c', i);
    }
    if MakesEmpty(c.sender, c'.sender) {
      var k :| |c.sender.log| <= k < |c'.sender.log| && c'.sender.log[k].seg.Length() == 0;
      assert c'.segmentsOut[|c.segmentsOut| + k - |c.sender.log|].Length() == 0;
    }
  }

  // ------------------------------------------------------------------
  // The reset

  /** Giving up puts out one reset, at the next number, in place of all that was queued. */
  lemma GivingUpSendsReset(c: Connection, ms: nat)
    requires GivesUp(c, Elapse(ms))
    ensures var c' := Step(c, Elapse(ms));
      && |c'.segmentsOut| == 1 && c'.segmentsOut[0].header.rst
      && c'.segmentsOut[0].header.seqno == Wrap(c.sender.next, c.sender.isn) && c'.segmentsOut[0].Length() == 0
      && !c'.active && c'.Outbound().error && c'.Inbound().error
  {
    hide StampAll;
    hide TickTimer;
    hide Retransmitted;
    hide Wrap;
  }

  /** A reset that arrives is not answered, whatever else is in it; it breaks both streams. */
  lemma ResetIsNotAnswered(c: Connection, seg: Segment)
    requires seg.header.rst
    ensures var c' := Step(c, Arrive(seg));
      && c'.segmentsOut == c.segmentsOut && c'.sender.log == c.sender.log
      && !c'.active && c'.Outbound().error && c'.Inbound().error
  {
  }

  // ------------------------------------------------------------------
  // The streams

  lemma {:induction false} FillWritten(s: Sender, limit: nat)
    ensures Fill(s, limit).stream.Written() == s.stream.Written()
    decreases limit - s.next
  {
    hide NextSegment;
    hide PayloadLength;
    if CanSend(s, limit) {
      PopKeepsWritten(s.stream, PayloadLength(s, limit));
      FillWritten(SendOne(s, limit), limit);
    }
  }

  lemma ArrivalWritten(c: Connection, seg: Segment)
    ensures SegmentArrives(c, seg).Outbound().Written() == c.Outbound().Written()
  {
    hide Receive;
    hide HandleAck;
    hide Reply;
    if !seg.header.rst {
      var c1 := c.(lingerTime := 0, receiver := Receive(c.receiver, seg));
      AnswerWritten(c1, seg.header, seg);
      AnswerWritten(TryCleanClose(NotePassiveClose(HandleAck(c1, seg.header))), seg.header, seg);
    }
  }

  lemma AnswerWritten(c: Connection, h: TcpHeader, seg: Segment)
    ensures HandleAck(c, h).Outbound().Written() == c.Outbound().Written()
    ensures Reply(c, seg).Outbound().Written() == c.Outbound().Written()
  {
    hide Fill;
    hide StampAll;
    hide Unwrap;
    hide Wrap;
    hide AckTimer;
    var s := AckReceived(c.sender, h.ackno, h.win);
    FillWritten(s, Limit(s));
    FillWritten(c.sender, Limit(c.sender));
  }

  /** What an operation adds to the outbound stream: the bytes of a write that fit. */
  function AddedBy(c: Connection, op: Op): seq<byte> {
    if op.Write? then op.data[..Min(|op.data|, c.Outbound().Free())] else []
  }

  /** What an operation takes from the inbound stream: the bytes that a read gets. */
  function TakenBy(c: Connection, op: Op): seq<byte> {
    if op.Read? then c.Inbound().buffer[..Min(op.n, |c.Inbound().buffer|)] else []
  }

  /** Only writes add to the outbound stream, and all that fits; only reads take from the inbound one. */
  lemma StepStreams(c: Connection, op: Op)
    requires ReceiverInv(c.receiver)
    ensures Step(c, op).Outbound().Written() == c.Outbound().Written() + AddedBy(c, op)
    ensures Step(c, op).Inbound().taken == c.Inbound().taken + TakenBy(c, op)
  {
    StepInbound(c, op);
    StepOutbound(c, op);
  }

  lemma StepInbound(c: Connection, op: Op)
    requires ReceiverInv(c.receiver)
    ensures Step(c, op).Inbound().taken == c.Inbound().taken + TakenBy(c, op)
  {
    hide Step;
    hide Receive;
    hide ReceiverInv;
    StepReceiver(c, op);
    if op.Arrive? {
      ReceiveKeepsInv(c.receiver, op.seg);
    }
  }

  lemma StepOutbound(c: Connection, op: Op)
    ensures Step(c, op).Outbound().Written() == c.Outbound().Written() + AddedBy(c, op)
  {
    hide Fill;
    hide StampAll;
    hide SegmentArrives;
    hide TickTimer;
    hide Retransmitted;
    hide Wrap;
    match op {
      case Connect => FillWritten(c.sender, Limit(c.sender));
      case Write(data) =>
        FillWritten(WriteStream(c.sender, data), Limit(c.sender));
        var more := data[..c.Outbound().Accepted(|data|)];
        assert c.Outbound().taken + (c.Outbound().buffer + more) == c.Outbound().Written() + more;
      case EndInput => FillWritten(EndStream(c.sender), Limit(c.sender));
      case Arrive(seg) => ArrivalWritten(c, seg);
      case Elapse(ms) =>
      case Read(n) =>
      case Collect =>
    }
  }
}
