/** A clean close, seen from both ends: nothing that was sent in either direction is missing. */
module CleanShutdown {
  import opened WrappingIntegers
  import opened Segments
  import opened Reassembly
  import opened Reception
  import opened Sending
  import opened ConnectionSteps
  import opened ConnectionInvariant
  import opened CleanClose
  import opened LateBytes
  import opened StateSummary
  import opened Links
  import opened FlowControl
  import opened Network

  /** Along the run `a` does not end its input without room for the FIN. */
  predicate RoomAtA(w: World, events: seq<Event>)
    decreases |events|
  {
    events == [] || (
      && (events[0].side.A? ==> LeavesRoom(w.a, events[0].op))
      && RoomAtA(Apply(w, events[0]), events[1..]))
  }

  lemma {:induction false} ExecKeepsCloseInv(w: World, events: seq<Event>)
    requires CloseInv(w.a) && RoomAtA(w, events)
    ensures CloseInv(Exec(w, events).a)
    decreases |events|
  {
    hide CloseInv;
    hide Step;
    hide LeavesRoom;
    if events == [] {
    } else {
      if events[0].side.A? {
        StepKeepsCloseInv(w.a, events[0].op);
      }
      ExecKeepsCloseInv(Apply(w, events[0]), events[1..]);
    }
  }

  /**
   * When `a` closes without an error after a run in which it did not end its input without room for
   * the FIN, the peer's inbound stream has ended with everything that was written at `a`, and the
   * reader at `a` has got everything that the peer sent, to its end.
   */
  lemma CleanCloseIsComplete(w0: World, events: seq<Event>, op: Op)
    requires Initial(w0) && Legal(w0, events) && RoomAtA(w0, events)
    requires var w := Exec(w0, events);
      && EnabledAtA(w, op) && LeavesRoom(w.a, op)
      && w.a.active && !Step(w.a, op).active && !Step(w.a, op).Outbound().error
    ensures var w := ApplyAtA(Exec(w0, events), op);
      && w.b.Inbound().inputEnded && w.b.Inbound().Written() == w.a.Outbound().Written()
      && w.b.sender.finSent && w.a.Inbound().taken == w.b.sender.stream.taken
  {
    hide CloseInv;
    hide WorldInv;
    hide Step;
    hide LeavesRoom;
    hide EnabledAtA;
    hide Legal;
    var w := Exec(w0, events);
    InitialCloseInv(w0);
    ExecKeepsCloseInv(w0, events);
    InitialInv(w0);
    ExecKeepsInv(w0, events);
    StepKeepsInv(w, op);
    StepKeepsCloseInv(w.a, op);
    ClosingStep(w.a, op);
    CompleteWhenFinished(ApplyAtA(w, op));
  }

  // ------------------------------------------------------------------
  // Bytes written behind the FIN

  lemma HandleAckLate(c: Connection, h: TcpHeader, late: nat)
    requires LateInv(c.sender, late)
    ensures LateInv(HandleAck(c, h).sender, late)
  {
    hide Fill;
    hide StampAll;
    hide Unwrap;
    hide AckTimer;
    var s := AckReceived(c.sender, h.ackno, h.win);
    FillLate(s, Limit(s), late);
  }

  lemma ReplyLate(c: Connection, seg: Segment, late: nat)
    requires LateInv(c.sender, late)
    ensures LateInv(Reply(c, seg).sender, late)
  {
    hide Fill;
    hide StampAll;
    hide Wrap;
    FillLate(c.sender, Limit(c.sender), late);
  }

  /** How many bytes an operation adds behind the FIN. */
  function LateInOp(s: Sender, op: Op): nat {
    if op.Write? then LateIn(s, op.data) else 0
  }

  lemma StepLate(c: Connection, op: Op, late: nat)
    requires LateInv(c.sender, late)
    ensures LateInv(Step(c, op).sender, late + LateInOp(c.sender, op))
  {
    hide Fill;
    hide StampAll;
    hide HandleAck;
    hide Reply;
    hide Receive;
    hide Tick;
    match op {
      case Connect => FillLate(c.sender, Limit(c.sender), late);
      case Write(data) =>
        WriteLate(c.sender, data, late);
        FillLate(WriteStream(c.sender, data), Limit(c.sender), late + LateIn(c.sender, data));
      case EndInput => FillLate(EndStream(c.sender), Limit(c.sender), late);
      case Arrive(seg) =>
        var c1 := c.(lingerTime := 0, receiver := Receive(c.receiver, seg));
        HandleAckLate(c1, seg.header, late);
        ReplyLate(TryCleanClose(NotePassiveClose(HandleAck(c1, seg.header))), seg, late);
      case Elapse(ms) => TickStanding(c, ms);
      case Read(n) =>
      case Collect =>
    }
  }

  /** The bytes that `a` accepts behind its FIN along a run. */
  function LateAtA(w: World, events: seq<Event>): nat
    decreases |events|
  {
    if events == [] then 0
    else (if events[0].side.A? then LateInOp(w.a.sender, events[0].op) else 0)
         + LateAtA(Apply(w, events[0]), events[1..])
  }

  lemma {:induction false} ExecLate(w: World, events: seq<Event>, late: nat)
    requires LateInv(w.a.sender, late)
    ensures LateInv(Exec(w, events).a.sender, late + LateAtA(w, events))
    decreases |events|
  {
    hide LateInv;
    hide LateInOp;
    hide Step;
    if events == [] {
    } else {
      var now := if events[0].side.A? then LateInOp(w.a.sender, events[0].op) else 0;
      if events[0].side.A? {
        StepLate(w.a, events[0].op, late);
      }
      ExecLate(Apply(w, events[0]), events[1..], late + now);
    }
  }

  /**
   * Acknowledged means delivered, exactly: after any run, a sent FIN with nothing in flight means that
   * the peer's inbound stream has ended, and lacks of what was written just the bytes written behind
   * the FIN. So it holds everything if and only if there are none.
   */
  lemma DeliveredExactly(w0: World, events: seq<Event>)
    requires Initial(w0) && Legal(w0, events)
    ensures var w := Exec(w0, events);
      w.a.sender.finSent && w.a.sender.inFlight == 0 ==>
        && w.b.Inbound().inputEnded
        && w.b.Inbound().Written() <= w.a.Outbound().Written()
        && |w.a.Outbound().Written()| == |w.b.Inbound().Written()| + LateAtA(w0, events)
        && (w.b.Inbound().Written() == w.a.Outbound().Written() <==> LateAtA(w0, events) == 0)
  {
    hide Legal;
    hide Exec;
    hide LateAtA;
    hide SenderInv;
    InitialLate(w0);
    ExecLate(w0, events, 0);
    assert Reachable(Exec(w0, events));
    AckedMeansDeliveredAlways(Exec(w0, events));
  }

  lemma InitialLate(w: World)
    requires Initial(w)
    ensures SenderInv(w.a.sender) && LateInv(w.a.sender, 0)
  {
  }

  /** Along the run nothing is written at `a` after its end of input. */
  predicate WritesBeforeEnd(w: World, events: seq<Event>)
    decreases |events|
  {
    events == [] || (
      && (events[0].side.A? && events[0].op.Write? ==> !w.a.Outbound().inputEnded)
      && WritesBeforeEnd(Apply(w, events[0]), events[1..]))
  }

  lemma {:induction false} NothingLate(w: World, events: seq<Event>)
    requires SenderInv(w.a.sender) && WritesBeforeEnd(w, events)
    ensures LateAtA(w, events) == 0
    decreases |events|
  {
    hide SenderInv;
    hide Step;
    if events == [] {
    } else {
      FinNeedsEnd(w.a.sender);
      if events[0].side.A? {
        StepSender(w.a, events[0].op);
      }
      NothingLate(Apply(w, events[0]), events[1..]);
    }
  }

  /** The documented contract of the stream is enough: the peer holds exactly what was written, to the last byte. */
  lemma DeliveredInFull(w0: World, events: seq<Event>)
    requires Initial(w0) && Legal(w0, events) && WritesBeforeEnd(w0, events)
    ensures var w := Exec(w0, events);
      w.a.sender.finSent && w.a.sender.inFlight == 0 ==>
        w.b.Inbound().inputEnded && w.b.Inbound().Written() == w.a.Outbound().Written()
  {
    hide Legal;
    hide Exec;
    hide WritesBeforeEnd;
    hide SenderInv;
    InitialLate(w0);
    NothingLate(w0, events);
    DeliveredExactly(w0, events);
  }

  lemma InitialCloseInv(w: World)
    requires Initial(w)
    ensures CloseInv(w.a)
  {
  }

  lemma ClosingStep(c: Connection, op: Op)
    requires CloseInv(c) && CloseInv(Step(c, op))
    requires c.active && !Step(c, op).active && !Step(c, op).Outbound().error
    ensures var c' := Step(c, op);
      c'.Inbound().Eof() && c'.Outbound().Eof() && c'.sender.finSent && c'.sender.inFlight == 0
  {
    hide SenderInv;
    hide OnlyWindowBlocks;
    hide Step;
    StepLife(c, op);
    FinishedMeansFinAcked(Step(c, op));
  }

  lemma CompleteWhenFinished(w: World)
    requires WorldInv(w)
    requires w.a.Inbound().Eof() && w.a.Outbound().Eof() && w.a.sender.finSent && w.a.sender.inFlight == 0
    ensures w.b.Inbound().inputEnded && w.b.Inbound().Written() == w.a.Outbound().Written()
    ensures w.b.sender.finSent && w.a.Inbound().taken == w.b.sender.stream.taken
  {
    hide SenderInv;
    hide ReceiverInv;
    hide Flow;
    hide NetKnown;
    hide WellFormed;
    hide AllSlices;
    AckedMeansDelivered(w.a.sender, w.b.receiver, w.b.acks);
    assert Safe(w.a.receiver.reassembler, w.b.sender.stream.taken);
  }
}
