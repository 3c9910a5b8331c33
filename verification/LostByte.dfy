/** A run of two endpoints that loses a byte: it was written behind the FIN. */
module LostByte {
  import opened Numbers
  import opened WrappingIntegers
  import opened ByteQueues
  import opened Segments
  import opened Reassembly
  import opened Reception
  import opened Sending
  import opened ConnectionSteps
  import opened ConnectionInvariant
  import opened Network
  import FlowControl
  import SenderRuns
  import CleanClose

  // ------------------------------------------------------------------
  // Never delivered

  lemma {:induction false} TakenStays(w: World, events: seq<Event>)
    requires WorldInv(w) && Legal(w, events) && w.a.sender.finSent
    ensures Exec(w, events).a.sender.stream.taken == w.a.sender.stream.taken
    decreases |events|
  {
    hide WorldInv;
    hide EnabledAtA;
    hide Step;
    hide SenderInv;
    if events == [] {
    } else {
      ApplyKeepsInv(w, events[0]);
      if events[0].side.A? {
        FinKeepsTaken(w, events[0].op);
      }
      TakenStays(Apply(w, events[0]), events[1..]);
    }
  }

  lemma FinKeepsTaken(w: World, op: Op)
    requires WorldInv(w) && w.a.sender.finSent
    ensures Step(w.a, op).sender.finSent && Step(w.a, op).sender.stream.taken == w.a.sender.stream.taken
  {
    hide SenderInv;
    hide Step;
    hide Unwrap;
    hide AckTimer;
    LinkSenderInv(w.a.sender, w.b.receiver, w.b.acks);
    StepSender(w.a, op);
  }

  /** Once the FIN is out, the peer never gets more than what was taken from the stream by then, in any legal run. */
  lemma NothingFollowsFin(w: World, events: seq<Event>)
    requires Reachable(w) && w.a.sender.finSent && Legal(w, events)
    ensures Exec(w, events).b.Inbound().Written() <= w.a.sender.stream.taken
  {
    hide Legal;
    hide Exec;
    hide WorldInv;
    ReachableInv(w);
    TakenStays(w, events);
    ReachableRun(w, events);
    EndToEndSafety(Exec(w, events));
  }

  lemma {:induction false} ReachableRun(w: World, events: seq<Event>)
    requires Reachable(w) && Legal(w, events)
    ensures Reachable(Exec(w, events))
    decreases |events|
  {
    hide Reachable;
    hide Enabled;
    hide Apply;
    if events == [] {
    } else {
      ReachableStep(w, events[0]);
      ReachableRun(Apply(w, events[0]), events[1..]);
    }
  }

  // ------------------------------------------------------------------
  // The segments of the run

  function Fresh(): Connection {
    NewConnection(1, 1, 1, 0)
  }

  function Syn(): Segment {
    Segment(DEFAULT_HEADER.(syn := true), [])
  }

  function SynAck(): Segment {
    Syn().Stamped(1, 1)
  }

  function Fin(): Segment {
    Segment(DEFAULT_HEADER.(seqno := 1, fin := true), []).Stamped(1, 1)
  }

  function LastAck(): Segment {
    Segment(DEFAULT_HEADER.(seqno := 1), []).Stamped(2, 1)
  }

  lemma Numbering()
    ensures Wrap(0, 0) == 0 && Wrap(1, 0) == 1 && Wrap(2, 0) == 2
    ensures Unwrap(0, 0, 0) == 0 && Unwrap(1, 0, 1) == 1 && Unwrap(2, 0, 2) == 2
  {
  }

  // ------------------------------------------------------------------
  // What the endpoints do

  /** A fresh sender with an empty stream sends its SYN. */
  lemma SynGoesOut(s: Sender)
    requires s.isn == 0 && s.next == 0 && s.inFlight == 0 && s.ackno == 0 && s.window == 1
    requires !s.finSent && s.stream.buffer == [] && s.segmentsOut == []
    ensures var t := FillWindow(s);
      && t.next == 1 && t.inFlight == 1 && !t.finSent && t.isn == 0 && t.stream == s.stream
      && t.segmentsOut == [Syn()]
  {
    hide Fill;
    hide Wrap;
    hide Unwrap;
    Numbering();
    assert CanSend(s, 1) && PayloadLength(s, 1) == 0 && s.stream.Pop(0) == s.stream;
    assert NextSegment(s, 1) == Syn();
    SenderRuns.FillOnce(s, 1);
  }

  /** With everything acknowledged and a window of one, a used-up stream sends its FIN. */
  lemma FinGoesOut(s: Sender)
    requires s.isn == 0 && s.next == s.ackno == 1 && s.window == 1 && s.inFlight == 0
    requires !s.finSent && s.stream.Eof() && s.segmentsOut == []
    ensures var t := FillWindow(s);
      && t.next == 2 && t.inFlight == 1 && t.finSent && t.isn == 0 && t.stream == s.stream
      && t.segmentsOut == [Segment(DEFAULT_HEADER.(seqno := 1, fin := true), [])]
  {
    hide Fill;
    hide Wrap;
    hide Unwrap;
    Numbering();
    assert CanSend(s, 2) && PayloadLength(s, 2) == 0 && s.stream.Pop(0) == s.stream;
    SenderRuns.FillOnce(s, 2);
  }

  /** A receiver that has got the SYN and nothing else. */
  function Opened(): Receiver {
    Receiver(New(1), true, 0, 1)
  }

  lemma OpenedStamp(seg: Segment)
    ensures Stamp(Opened(), seg) == seg.Stamped(1, 1)
  {
    hide Wrap;
    hide Unwrap;
    Numbering();
    assert Opened().WindowSize() == 1;
  }

  /** Ending the input at once sends the SYN. */
  lemma Opens()
    ensures var c := Step(Fresh(), EndInput);
      && c.segmentsOut == [Syn()] && c.sender.segmentsOut == [] && c.receiver == NewReceiver(1)
      && c.sender.next == 1 && c.sender.inFlight == 1 && !c.sender.finSent && c.sender.isn == 0
      && c.Outbound() == EmptyQueue(1).EndInput()
  {
    hide FillWindow;
    hide StampAll;
    SynGoesOut(EndStream(NewSender(1, 1, 0)));
    OneStamp(NewReceiver(1), Syn());
  }

  lemma SynReceived(seg: Segment)
    requires seg == Syn() || seg == SynAck()
    ensures Receive(NewReceiver(1), seg) == Opened()
  {
    hide Unwrap;
    Numbering();
  }

  /** The peer answers the SYN with its own. */
  lemma Answers()
    ensures var c := Step(Fresh(), Arrive(Syn()));
      && c.segmentsOut == [SynAck()] && c.sender.segmentsOut == [] && c.receiver == Opened()
      && c.sender.next == 1 && c.sender.inFlight == 1 && !c.sender.finSent && c.sender.isn == 0
      && c.Outbound() == EmptyQueue(1)
  {
    hide FillWindow;
    hide StampAll;
    hide Receive;
    SynReceived(Syn());
    SynGoesOut(NewSender(1, 1, 0));
    OneStamp(Opened(), Syn());
    OpenedStamp(Syn());
  }

  /** The answer lets the FIN out. */
  lemma Finishes(c: Connection)
    requires SenderInv(c.sender) && c.receiver == NewReceiver(1) && c.sender.segmentsOut == []
    requires c.sender.next == 1 && c.sender.inFlight == 1 && !c.sender.finSent && c.sender.isn == 0
    requires c.Outbound() == EmptyQueue(1).EndInput()
    ensures var c' := Step(c, Arrive(SynAck()));
      && Fin() in c'.segmentsOut
      && c'.sender.next == 2 && c'.sender.inFlight == 1 && c'.sender.finSent && c'.sender.isn == 0
      && c'.Outbound() == c.Outbound()
  {
    hide FillWindow;
    hide StampAll;
    hide Receive;
    hide SenderInv;
    hide AckTimer;
    hide AckedLength;
    hide Unwrap;
    hide Wrap;
    Numbering();
    SynReceived(SynAck());
    var s := AcceptAck(c.sender, 1, 1);
    SenderRuns.LastAck(c.sender, 1, 1);
    FinGoesOut(s);
    var fin := Segment(DEFAULT_HEADER.(seqno := 1, fin := true), []);
    OneStamp(Opened(), fin);
    OpenedStamp(fin);
    var c1 := c.(lingerTime := 0, receiver := Opened());
    var c2 := HandleAck(c1, SynAck().header);
    assert c2 == FillAndSend(c1.(sender := s));
    assert c2.segmentsOut == c.segmentsOut + [Fin()];
    ReplyAddsOnly(TryCleanClose(NotePassiveClose(c2)), SynAck());
  }

  lemma ReplyAddsOnly(c: Connection, seg: Segment)
    requires c.sender.next > 0
    ensures c.segmentsOut <= Reply(c, seg).segmentsOut
    ensures CleanClose.SameStanding(c.sender, Reply(c, seg).sender) && Reply(c, seg).sender.isn == c.sender.isn
    ensures Reply(c, seg).Outbound().error == c.Outbound().error
  {
    hide FillWindow;
    hide StampAll;
    hide Wrap;
  }

  lemma FinReceived()
    ensures var r := Receive(Opened(), Fin());
      r.synArrived && r.isn == 0 && r.ackno == 2 && r.WindowSize() == 1
  {
    hide Unwrap;
    Numbering();
  }

  /** Nothing is left to send when the acknowledgment of the SYN comes with the FIN. */
  lemma NothingToSend(c: Connection)
    requires c.sender.next == 1 && c.sender.isn == 0 && c.sender.segmentsOut == [] && !c.sender.finSent
    requires c.Outbound() == EmptyQueue(1)
    ensures var c' := HandleAck(c, Fin().header);
      && c'.sender.next == 1 && c'.sender.isn == 0 && c'.sender.segmentsOut == []
      && c'.receiver == c.receiver && !c'.Outbound().inputEnded
  {
    hide AckTimer;
    hide AckedLength;
    hide Unwrap;
    hide StampAll;
    NoStamp(c.receiver);
    Numbering();
    assert FillWindow(AcceptAck(c.sender, 1, 1)) == AcceptAck(c.sender, 1, 1);
  }

  lemma RepliesToFin(c: Connection)
    requires c.receiver.synArrived && c.receiver.isn == 0 && c.receiver.ackno == 2 && c.receiver.WindowSize() == 1
    requires c.sender.next == 1 && c.sender.isn == 0 && c.sender.segmentsOut == []
    ensures Reply(c, Fin()).segmentsOut == c.segmentsOut + [LastAck()] && Reply(c, Fin()).sender.next == 1
  {
    hide StampAll;
    hide Wrap;
    hide Unwrap;
    hide FillWindow;
    Numbering();
    OneStamp(c.receiver, EmptySegment(c.sender));
    assert [] + [EmptySegment(c.sender)] == [EmptySegment(c.sender)];
  }

  /** The FIN is acknowledged. */
  lemma Acknowledges(c: Connection)
    requires c.receiver == Opened() && c.sender.segmentsOut == []
    requires c.sender.next == 1 && !c.sender.finSent && c.sender.isn == 0 && c.Outbound() == EmptyQueue(1)
    ensures LastAck() in Step(c, Arrive(Fin())).segmentsOut
    ensures Step(c, Arrive(Fin())).sender.next == 1
  {
    hide Receive;
    hide HandleAck;
    hide Reply;
    hide LastAck;
    FinReceived();
    var c1 := c.(lingerTime := 0, receiver := Receive(Opened(), Fin()));
    NothingToSend(c1);
    RepliesToFin(TryCleanClose(NotePassiveClose(HandleAck(c1, Fin().header))));
  }

  /** Now everything that `a` has sent is acknowledged. */
  lemma IsAcknowledged(c: Connection)
    requires SenderInv(c.sender) && c.sender.next == 2 && c.sender.finSent && c.sender.isn == 0
    ensures var c' := Step(c, Arrive(LastAck()));
      c'.sender.inFlight == 0 && c'.sender.finSent && c'.Outbound() == c.Outbound()
  {
    hide StampAll;
    hide Receive;
    hide SenderInv;
    hide AckTimer;
    hide AckedLength;
    hide Unwrap;
    hide Wrap;
    hide Reply;
    Numbering();
    SenderRuns.LastAck(c.sender, 2, 1);
    var s := AcceptAck(c.sender, 2, 1);
    assert FillWindow(s) == s;
    var c1 := c.(lingerTime := 0, receiver := Receive(c.receiver, LastAck()));
    ReplyAddsOnly(TryCleanClose(NotePassiveClose(HandleAck(c1, LastAck().header))), LastAck());
  }

  lemma WriteBehindFin(c: Connection)
    requires c.sender.finSent && c.Outbound() == EmptyQueue(1).EndInput()
    ensures var c' := Step(c, Write([7]));
      c'.Outbound().Written() == [7] && c'.sender.finSent && c'.sender.inFlight == c.sender.inFlight
  {
    hide StampAll;
    var s := WriteStream(c.sender, [7]);
    assert s.stream.buffer == [7];
    assert FillWindow(s) == s;
  }

  // ------------------------------------------------------------------
  // The run

  function Start(): World {
    World(Fresh(), Fresh(), {}, {})
  }

  lemma StartIsInitial()
    ensures Initial(Start()) && Reachable(Start())
  {
    var one: u16, zero: u32 := 1, 0;
    assert Start().a == NewConnection(one, 1, 1, zero) && Start().b == NewConnection(one, 1, 1, zero);
    assert Legal(Start(), []) && Start() == Exec(Start(), []);
  }

  /** What a side has queued goes onto the network. */
  function Posted(w: World, side: Side): World {
    Apply(w, Event(side, Collect))
  }

  lemma PostedIsReachable(w: World, side: Side)
    requires Reachable(w)
    ensures Reachable(Posted(w, side))
  {
    hide Reachable;
    ReachableStep(w, Event(side, Collect));
  }

  lemma ArrivesAtB(w: World, seg: Segment)
    requires Reachable(w) && seg in w.ab && w.a.sender.next < TWO31 && w.b.sender.next < TWO31
    ensures Reachable(Apply(w, Event(B, Arrive(seg))))
  {
    hide Reachable;
    hide Deliverable;
    ShortRunsDeliverEverything(w, seg);
    ReachableStep(w, Event(B, Arrive(seg)));
  }

  lemma ArrivesAtA(w: World, seg: Segment)
    requires Reachable(w) && seg in w.ba && w.a.sender.next < TWO31 && w.b.sender.next < TWO31
    ensures Reachable(Apply(w, Event(A, Arrive(seg))))
  {
    hide Reachable;
    hide Deliverable;
    ReachableSwap(w);
    ShortRunsDeliverEverything(w.Swap(), seg);
    ReachableStep(w, Event(A, Arrive(seg)));
  }

  lemma SendersAreValid(w: World)
    requires Reachable(w)
    ensures SenderInv(w.a.sender) && SenderInv(w.b.sender)
  {
    hide Reachable;
    hide SenderInv;
    hide NetKnown;
    hide FlowControl.Flow;
    ReachableInv(w);
    LinkSenderInv(w.a.sender, w.b.receiver, w.b.acks);
    LinkSenderInv(w.b.sender, w.a.receiver, w.a.acks);
  }

  /** `a` ends its input, and the SYN arrives. */
  function AfterSyn(): World {
    Posted(Apply(Posted(Apply(Start(), Event(A, EndInput)), A), Event(B, Arrive(Syn()))), B)
  }

  lemma SynPhase()
    ensures var w := AfterSyn();
      && Reachable(w) && SynAck() in w.ba
      && w.a == Step(Fresh(), EndInput).(segmentsOut := [])
      && w.b == Step(Fresh(), Arrive(Syn())).(segmentsOut := [])
  {
    hide Reachable;
    hide EndInputStream;
    hide SegmentArrives;
    StartIsInitial();
    ReachableStep(Start(), Event(A, EndInput));
    var w1 := Apply(Start(), Event(A, EndInput));
    PostedIsReachable(w1, A);
    Opens();
    ArrivesAtB(Posted(w1, A), Syn());
    PostedIsReachable(Apply(Posted(w1, A), Event(B, Arrive(Syn()))), B);
    Answers();
  }

  /** The answer arrives, and then the FIN. */
  function AfterFin(): World {
    Posted(Apply(Posted(Apply(AfterSyn(), Event(A, Arrive(SynAck()))), A), Event(B, Arrive(Fin()))), B)
  }

  lemma FinPhase()
    ensures var w := AfterFin();
      && Reachable(w) && LastAck() in w.ba && w.b.sender.next == 1
      && w.a.sender.next == 2 && w.a.sender.finSent && w.a.sender.isn == 0 && w.a.Outbound() == EmptyQueue(1).EndInput()
  {
    hide Reachable;
    hide AfterSyn;
    hide SegmentArrives;
    hide EndInputStream;
    hide SenderInv;
    SynPhase();
    Opens();
    Answers();
    var w := AfterSyn();
    SendersAreValid(w);
    Finishes(w.a);
    ArrivesAtA(w, SynAck());
    var w1 := Apply(w, Event(A, Arrive(SynAck())));
    PostedIsReachable(w1, A);
    ArrivesAtB(Posted(w1, A), Fin());
    Acknowledges(w.b);
    PostedIsReachable(Apply(Posted(w1, A), Event(B, Arrive(Fin()))), B);
  }

  /** The acknowledgment arrives, and one more byte is written. */
  function AfterWrite(): World {
    Apply(Apply(AfterFin(), Event(A, Arrive(LastAck()))), Event(A, Write([7])))
  }

  /**
   * In a reachable state everything that `a` has sent is acknowledged, its FIN included, the peer's
   * stream has ended, and the byte written at `a` is not in it.
   */
  lemma LateByteIsLost()
    ensures var w := AfterWrite();
      && Reachable(w) && w.a.sender.finSent && w.a.sender.inFlight == 0
      && w.a.Outbound().Written() == [7] && w.b.Inbound().inputEnded && w.b.Inbound().Written() == []
  {
    hide Reachable;
    hide AfterFin;
    hide SegmentArrives;
    hide WriteData;
    hide SenderInv;
    FinPhase();
    var w := AfterFin();
    SendersAreValid(w);
    ArrivesAtA(w, LastAck());
    IsAcknowledged(w.a);
    var w1 := Apply(w, Event(A, Arrive(LastAck())));
    ReachableStep(w1, Event(A, Write([7])));
    WriteBehindFin(w1.a);
    AckedMeansDeliveredAlways(w1);
    assert w1.a.sender.stream.taken == [];
  }
}
