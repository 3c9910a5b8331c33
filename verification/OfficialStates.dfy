/** The state names of the TCP specification, and where a connection ends up in their terms. */
module OfficialStates {
  import opened Numbers
  import opened Segments
  import opened Reassembly
  import opened Reception
  import opened Sending
  import opened ConnectionSteps
  import opened ConnectionInvariant
  import opened CleanClose
  import SenderRuns
  import opened StateSummary
  import opened WrappingIntegers
  import StaleAck

  datatype OfficialState =
    | LISTEN
    | SYN_RCVD
    | SYN_SENT
    | ESTABLISHED
    | CLOSE_WAIT
    | LAST_ACK
    | FIN_WAIT_1
    | FIN_WAIT_2
    | CLOSING
    | TIME_WAIT
    | CLOSED
    | RESET

  datatype Summary = Summary(sender: SenderState, receiver: ReceiverState, active: bool, linger: bool)

  function Official(s: OfficialState): Summary {
    match s
    case LISTEN => Summary(Closed, Listen, true, true)
    case SYN_RCVD => Summary(SynSent, SynReceived, true, true)
    case SYN_SENT => Summary(SynSent, Listen, true, true)
    case ESTABLISHED => Summary(SynAcked, SynReceived, true, true)
    case CLOSE_WAIT => Summary(SynAcked, FinReceived, true, false)
    case LAST_ACK => Summary(FinSent, FinReceived, true, false)
    case CLOSING => Summary(FinSent, FinReceived, true, true)
    case FIN_WAIT_1 => Summary(FinSent, SynReceived, true, true)
    case FIN_WAIT_2 => Summary(FinAcked, SynReceived, true, true)
    case TIME_WAIT => Summary(FinAcked, FinReceived, true, true)
    case RESET => Summary(SenderError, ReceiverError, false, false)
    case CLOSED => Summary(FinAcked, FinReceived, false, false)
  }

  function Summarize(c: Connection): Summary {
    Summary(SummarizeSender(c.sender), SummarizeReceiver(c.receiver), c.active, c.active && c.linger)
  }

  /** A reset that arrives, and a tick that passes the retransmission limit, lead to RESET. */
  lemma ResetIsReset(c: Connection, op: Op)
    requires (op.Arrive? && op.seg.header.rst)
          || (op.Elapse? && TickSender(c.sender, op.ms).timer.retransmissions > MAX_RETX_ATTEMPTS)
    ensures Summarize(Step(c, op)) == Official(RESET)
  {
    hide StampAll;
    hide TickTimer;
    hide Retransmitted;
    hide Wrap;
  }

  // ------------------------------------------------------------------
  // The history that every name stands for

  /** What every run keeps. */
  ghost predicate Lifecycle(c: Connection) {
    && SenderInv(c.sender) && OnlyWindowBlocks(c.sender) && ReceiverInv(c.receiver)
    && (c.receiver.synArrived ==> c.sender.next > 0)
    && (!c.linger ==> c.receiver.Ended())
    && (c.Outbound().error <==> c.Inbound().error)
    && (c.Outbound().error ==> !c.active)
  }

  /** An unbroken inactive endpoint has its FIN acknowledged and has received the peer's. */
  predicate ClosedInFull(c: Connection) {
    !c.active && !c.Outbound().error ==> c.sender.finSent && c.sender.inFlight == 0 && c.receiver.Ended()
  }

  lemma ReceiveKeepsEnded(r: Receiver, seg: Segment)
    ensures r.Ended() ==> Receive(r, seg).Ended()
    ensures Receive(r, seg).synArrived <==> r.synArrived || seg.header.syn
  {
    hide Insert;
    hide Unwrap;
    var r1 := NoteSyn(r, seg.header);
    var idx := Unwrap(seg.header.seqno, r1.isn, r1.ackno);
    if r1.synArrived && InReach(r1, idx, seg.header.syn) {
      var index := idx + Bit(seg.header.syn) - 1;
      InsertAdvances(MarkEof(r.reassembler, index + |seg.payload|, seg.header.fin), seg.payload, index);
    }
  }

  lemma StepKeepsEnded(c: Connection, op: Op)
    ensures c.receiver.Ended() ==> Step(c, op).receiver.Ended()
    ensures Step(c, op).receiver.synArrived ==>
              c.receiver.synArrived || (op.Arrive? && op.seg.header.syn && !op.seg.header.rst)
  {
    hide Step;
    hide Receive;
    StepReceiver(c, op);
    if op.Arrive? {
      ReceiveKeepsEnded(c.receiver, op.seg);
    }
  }

  lemma FillSendsSyn(s: Sender)
    requires SenderInv(s) && s.next == 0
    ensures FillWindow(s).next > 0
  {
    hide LogInv;
    hide QueueInv;
    hide Tiles;
    hide Payloads;
    hide Fill;
    SenderRuns.FillSendsAllThatFits(s, Limit(s));
  }

  /** A SYN that arrives is answered with a SYN. */
  lemma SynIsAnswered(c: Connection, seg: Segment)
    requires SenderInv(c.sender) && seg.header.syn && !seg.header.rst
    ensures SegmentArrives(c, seg).sender.next > 0
  {
    hide SenderInv;
    hide Receive;
    hide HandleAck;
    hide Reply;
    var c1 := c.(lingerTime := 0, receiver := Receive(c.receiver, seg));
    var c4 := TryCleanClose(NotePassiveClose(HandleAck(c1, seg.header)));
    ReceiveKeepsEnded(c.receiver, seg);
    HandleAckSender(c1, seg.header);
    HandleAckKeepsRest(c1, seg.header);
    ReplyToSyn(c4, seg);
  }

  lemma ReplyToSyn(c: Connection, seg: Segment)
    requires SenderInv(c.sender) && seg.header.syn && c.receiver.synArrived
    ensures Reply(c, seg).sender.next > 0
  {
    hide SenderInv;
    hide FillWindow;
    hide StampAll;
    hide Wrap;
    if c.sender.next == 0 {
      FillSendsSyn(c.sender);
    }
  }

  lemma StepKeepsSyn(c: Connection, op: Op)
    requires SenderInv(c.sender) && (c.receiver.synArrived ==> c.sender.next > 0)
    ensures Step(c, op).receiver.synArrived ==> Step(c, op).sender.next > 0
  {
    hide SenderInv;
    hide SegmentArrives;
    hide FillAndSend;
    hide Tick;
    StepKeepsEnded(c, op);
    StepNext(c, op);
    if op.Arrive? && op.seg.header.syn && !op.seg.header.rst {
      SynIsAnswered(c, op.seg);
    }
  }

  lemma StepNext(c: Connection, op: Op)
    requires SenderInv(c.sender)
    ensures c.sender.next <= Step(c, op).sender.next
    ensures c.sender.finSent ==> Step(c, op).sender.finSent
  {
    hide SenderInv;
    hide Step;
    hide Unwrap;
    hide AckTimer;
    StepSender(c, op);
  }

  lemma InboundErrorStays(c: Connection, h: TcpHeader, seg: Segment)
    ensures HandleAck(c, h).receiver == Reply(c, seg).receiver == c.receiver
    ensures HandleAck(c, h).Outbound().error == Reply(c, seg).Outbound().error == c.Outbound().error
  {
    hide HandleAck;
    hide Reply;
    HandleAckKeepsRest(c, h);
    ReplyKeepsRest(c, seg);
    AckFlags(c, h, seg);
  }

  lemma ReceiveError(r: Receiver, seg: Segment)
    requires ReceiverInv(r)
    ensures Receive(r, seg).reassembler.output.error == r.reassembler.output.error
  {
    hide ReceiverInv;
    hide Receive;
    ReceiveKeepsInv(r, seg);
  }

  /** The two streams break together, and only when the connection goes inactive. */
  lemma StepErrors(c: Connection, op: Op)
    requires ReceiverInv(c.receiver) && (c.Outbound().error <==> c.Inbound().error)
    requires c.Outbound().error ==> !c.active
    ensures var c' := Step(c, op);
      (c'.Outbound().error <==> c'.Inbound().error) && (c'.Outbound().error ==> !c'.active)
  {
    hide ReceiverInv;
    hide Fill;
    hide StampAll;
    hide HandleAck;
    hide Reply;
    hide Receive;
    hide TickTimer;
    hide Retransmitted;
    hide Wrap;
    match op {
      case Connect => SenderRuns.FillGrows(c.sender, Limit(c.sender));
      case Write(data) => SenderRuns.FillGrows(WriteStream(c.sender, data), Limit(c.sender));
      case EndInput => SenderRuns.FillGrows(EndStream(c.sender), Limit(c.sender));
      case Arrive(seg) => ArrivalErrors(c, seg);
      case Elapse(ms) =>
      case Read(n) =>
      case Collect =>
    }
  }

  lemma ArrivalErrors(c: Connection, seg: Segment)
    requires ReceiverInv(c.receiver) && (c.Outbound().error <==> c.Inbound().error)
    requires c.Outbound().error ==> !c.active
    ensures var c' := SegmentArrives(c, seg);
      (c'.Outbound().error <==> c'.Inbound().error) && (c'.Outbound().error ==> !c'.active)
  {
    hide ReceiverInv;
    hide HandleAck;
    hide Reply;
    hide Receive;
    if !seg.header.rst {
      ReceiveError(c.receiver, seg);
      var c1 := c.(lingerTime := 0, receiver := Receive(c.receiver, seg));
      InboundErrorStays(c1, seg.header, seg);
      HandleAckKeepsRest(c1, seg.header);
      var c4 := TryCleanClose(NotePassiveClose(HandleAck(c1, seg.header)));
      InboundErrorStays(c4, seg.header, seg);
      ReplyKeepsRest(c4, seg);
    }
  }

  /** What is finished stays finished. */
  lemma FinishedStays(c: Connection, op: Op)
    requires SenderInv(c.sender) && c.sender.finSent && c.sender.inFlight == 0
    ensures Step(c, op).sender.finSent && Step(c, op).sender.inFlight == 0
  {
    hide SenderInv;
    hide Step;
    hide Unwrap;
    hide AckTimer;
    StepSender(c, op);
    StepNext(c, op);
    SenderRuns.NoFlightMeansAllAcked(c.sender);
    SenderRuns.NoFlightMeansAllAcked(Step(c, op).sender);
    SenderRuns.AckBounded(Step(c, op).sender);
    NumbersUsed(c.sender);
    NumbersUsed(Step(c, op).sender);
  }

  lemma NumbersUsed(s: Sender)
    requires SenderInv(s) && s.finSent
    ensures s.next == 2 + |s.stream.taken|
  {
  }

  lemma StepKeepsLifecycle(c: Connection, op: Op)
    requires Lifecycle(c)
    ensures Lifecycle(Step(c, op))
  {
    hide SenderInv;
    hide ReceiverInv;
    hide OnlyWindowBlocks;
    hide Step;
    StepSender(c, op);
    StepBlocks(c, op);
    StepKeepsReceiverInv(c, op);
    StepKeepsSyn(c, op);
    StepKeepsEnded(c, op);
    StepErrors(c, op);
    StepLife(c, op);
  }

  lemma {:induction false} RunKeepsLifecycle(c: Connection, ops: seq<Op>)
    requires Lifecycle(c)
    ensures Lifecycle(Run(c, ops))
    decreases |ops|
  {
    hide Lifecycle;
    hide Step;
    if ops == [] {
    } else {
      StepKeepsLifecycle(c, ops[0]);
      RunKeepsLifecycle(Step(c, ops[0]), ops[1..]);
    }
  }

  /** Unless the input is ended without room for the FIN, an unbroken endpoint goes inactive only in full. */
  lemma StepClosesInFull(c: Connection, op: Op)
    requires Lifecycle(c) && CloseInv(c) && ClosedInFull(c) && LeavesRoom(c, op)
    ensures CloseInv(Step(c, op)) && ClosedInFull(Step(c, op))
  {
    hide SenderInv;
    hide ReceiverInv;
    hide OnlyWindowBlocks;
    hide Stranded;
    hide Exhausted;
    hide Step;
    StepKeepsCloseInv(c, op);
    StepKeepsEnded(c, op);
    StepFlags(c, op);
    StepLife(c, op);
    var c' := Step(c, op);
    if !c'.active && !c'.Outbound().error {
      if c.active {
        FinishedMeansFinAcked(c');
      } else {
        FinishedStays(c, op);
      }
    }
  }

  lemma {:induction false} RunClosesInFull(c: Connection, ops: seq<Op>)
    requires Lifecycle(c) && CloseInv(c) && ClosedInFull(c) && AllLeaveRoom(c, ops)
    ensures CloseInv(Run(c, ops)) && ClosedInFull(Run(c, ops))
    decreases |ops|
  {
    hide Lifecycle;
    hide CloseInv;
    hide ClosedInFull;
    hide LeavesRoom;
    hide Step;
    if ops == [] {
    } else {
      StepKeepsLifecycle(c, ops[0]);
      StepClosesInFull(c, ops[0]);
      RunClosesInFull(Step(c, ops[0]), ops[1..]);
    }
  }

  // ------------------------------------------------------------------
  // The closing step

  /** Both streams finished, without an error: FIN_ACKED, unless there is no FIN and the count tells. */
  lemma FinishedSummary(c: Connection)
    requires Lifecycle(c) && c.BothFinished() && !c.Outbound().error
    ensures Summarize(c) == Summary(if c.sender.finSent || |c.Outbound().Written()| >= TWO32 then FinAcked else SynAcked,
                                    FinReceived, c.active, c.active && c.linger)
  {
    hide ReceiverInv;
    hide OnlyWindowBlocks;
    hide LogInv;
    hide QueueInv;
    hide Tiles;
    hide Payloads;
    EndedHasSyn(c.receiver);
    EofHasSyn(c.sender);
    assert c.Outbound().Written() == c.Outbound().taken;
  }

  /**
   * In every run, a step in which the connection goes inactive without an error ends in CLOSED if and
   * only if the FIN is sent by then, or its absence is covered up by 2^32 bytes or more.
   */
  lemma ClosesAsClosedExactly(rt: u16, recvCapacity: nat, sendCapacity: nat, isn: u32, ops: seq<Op>, op: Op)
    requires var c := Run(NewConnection(rt, recvCapacity, sendCapacity, isn), ops);
      c.active && !Step(c, op).active && !Step(c, op).Outbound().error
    ensures var c' := Step(Run(NewConnection(rt, recvCapacity, sendCapacity, isn), ops), op);
      Summarize(c') == Official(CLOSED) <==> c'.sender.finSent || |c'.Outbound().Written()| >= TWO32
  {
    hide SenderInv;
    hide ReceiverInv;
    hide OnlyWindowBlocks;
    hide Step;
    hide Run;
    hide Summarize;
    var c0 := NewConnection(rt, recvCapacity, sendCapacity, isn);
    NewLifecycle(rt, recvCapacity, sendCapacity, isn);
    RunKeepsLifecycle(c0, ops);
    StepKeepsLifecycle(Run(c0, ops), op);
    StepLife(Run(c0, ops), op);
    FinishedSummary(Step(Run(c0, ops), op));
  }

  /** So it does in every run that does not end the input without room for the FIN. */
  lemma CleanCloseIsClosed(rt: u16, recvCapacity: nat, sendCapacity: nat, isn: u32, ops: seq<Op>, op: Op)
    requires var c0 := NewConnection(rt, recvCapacity, sendCapacity, isn);
      && AllLeaveRoom(c0, ops)
      && LeavesRoom(Run(c0, ops), op)
      && Run(c0, ops).active
      && !Step(Run(c0, ops), op).active
      && !Step(Run(c0, ops), op).Outbound().error
    ensures Summarize(Step(Run(NewConnection(rt, recvCapacity, sendCapacity, isn), ops), op)) == Official(CLOSED)
  {
    hide Lifecycle;
    hide CloseInv;
    hide LeavesRoom;
    hide Step;
    hide Run;
    hide Summarize;
    var c0 := NewConnection(rt, recvCapacity, sendCapacity, isn);
    NewLifecycle(rt, recvCapacity, sendCapacity, isn);
    NewCloseInv(rt, recvCapacity, sendCapacity, isn);
    RunKeepsLifecycle(c0, ops);
    RunClosesInFull(c0, ops);
    StepClosesInFull(Run(c0, ops), op);
    ClosesAsClosedExactly(rt, recvCapacity, sendCapacity, isn, ops, op);
  }

  // ------------------------------------------------------------------
  // Names

  /** Our FIN is acknowledged and the peer's is here. */
  ghost predicate Complete(c: Connection) {
    c.sender.finSent && AllAcked(c.sender) && c.receiver.Ended()
  }

  /** What a state name says about what was sent, acknowledged and received so far. */
  ghost predicate Stands(n: OfficialState, c: Connection) {
    var s, r := c.sender, c.receiver;
    match n
    case RESET => s.stream.error
    case CLOSED => !s.stream.error && !c.active && Complete(c)
    case _ =>
      && !s.stream.error && c.active
      && match n {
           case LISTEN => s.next == 0 && !r.synArrived
           case SYN_SENT => s.next > 0 && !SomethingAcked(s) && !r.synArrived
           case SYN_RCVD => s.next > 0 && !SomethingAcked(s) && r.synArrived && !r.Ended()
           case ESTABLISHED => SomethingAcked(s) && !s.finSent && r.synArrived && !r.Ended()
           case CLOSE_WAIT => SomethingAcked(s) && !s.finSent && r.Ended() && !c.linger
           case LAST_ACK => SomethingAcked(s) && s.finSent && !AllAcked(s) && r.Ended() && !c.linger
           case FIN_WAIT_1 => SomethingAcked(s) && s.finSent && !AllAcked(s) && r.synArrived && !r.Ended()
           case FIN_WAIT_2 => s.finSent && AllAcked(s) && r.synArrived && !r.Ended()
           case CLOSING => SomethingAcked(s) && s.finSent && !AllAcked(s) && r.Ended() && c.linger
           case _ => s.finSent && AllAcked(s) && r.Ended() && c.linger
         }
  }

  /** The states between the names. */
  ghost predicate Nameless(c: Connection) {
    var s, r := c.sender, c.receiver;
    && !s.stream.error
    && (if c.active then
          || (SomethingAcked(s) && !r.synArrived)
          || (s.next > 0 && !SomethingAcked(s) && r.Ended())
          || (SomethingAcked(s) && !s.finSent && r.Ended() && c.linger)
          || (Complete(c) && !c.linger)
        else !Complete(c))
  }

  lemma EndedHasSyn(r: Receiver)
    requires ReceiverInv(r) && r.Ended()
    ensures r.synArrived
  {
  }

  /** What the history says about the sender, in terms of the counters. */
  lemma SenderFacts(s: Sender)
    requires SenderInv(s) && CountsAreTelling(s) && !s.stream.error
    ensures SummarizeSender(s) ==
      if s.next == 0 then Closed else if !SomethingAcked(s) then SynSent
      else if !s.finSent then SynAcked else if AllAcked(s) then FinAcked else FinSent
    ensures SomethingAcked(s) ==> s.next > 0
    ensures s.finSent && AllAcked(s) ==> SomethingAcked(s)
    ensures s.inFlight == 0 <==> AllAcked(s)
  {
    hide SenderInv;
    hide SomethingAcked;
    hide SummarizeSender;
    hide TotalLength;
    SummaryMatchesHistory(s);
    NothingAckedMeansAllInFlight(s);
    NothingAckedAtZero(s);
    SenderRuns.NoFlightMeansAllAcked(s);
    SenderRuns.EmptyLength();
    FinUsesNumber(s);
  }

  lemma FinUsesNumber(s: Sender)
    requires SenderInv(s)
    ensures s.finSent ==> s.next > 0
  {
  }

  /** Under the invariant, the counts telling, a summary has a name exactly if the history says so. */
  lemma NamesAt(c: Connection, n: OfficialState)
    requires Lifecycle(c) && CountsAreTelling(c.sender)
    ensures Summarize(c) == Official(n) <==> Stands(n, c)
    ensures Nameless(c) ==> Summarize(c) != Official(n)
  {
    hide SenderInv;
    hide ReceiverInv;
    hide OnlyWindowBlocks;
    hide SomethingAcked;
    hide AllAcked;
    hide SummarizeSender;
    if !c.Outbound().error {
      SenderFacts(c.sender);
    } else {
      BrokenSummary(c.sender);
    }
    if c.receiver.Ended() {
      EndedHasSyn(c.receiver);
    }
  }

  lemma BrokenSummary(s: Sender)
    requires s.stream.error
    ensures SummarizeSender(s) == SenderError
  {
  }

  lemma NameExists(c: Connection) returns (n: OfficialState)
    requires Lifecycle(c) && CountsAreTelling(c.sender) && !Nameless(c)
    ensures Stands(n, c)
  {
    hide SenderInv;
    hide ReceiverInv;
    hide OnlyWindowBlocks;
    hide SomethingAcked;
    hide AllAcked;
    hide SummarizeSender;
    var s, r := c.sender, c.receiver;
    if !s.stream.error {
      SenderFacts(s);
    }
    if r.Ended() {
      EndedHasSyn(r);
    }
    n := if s.stream.error then RESET else if !c.active then CLOSED
         else if s.next == 0 then LISTEN
         else if !SomethingAcked(s) then (if r.synArrived then SYN_RCVD else SYN_SENT)
         else if !s.finSent then (if r.Ended() then CLOSE_WAIT else ESTABLISHED)
         else if !AllAcked(s) then (if !r.Ended() then FIN_WAIT_1 else if c.linger then CLOSING else LAST_ACK)
         else if r.Ended() then TIME_WAIT else FIN_WAIT_2;
  }

  /**
   * After every run, as long as the counts are telling: the summary is that of an official state
   * exactly if the history is the one that the name stands for, and of no official state exactly if
   * the endpoint is unbroken and
   *  - active, and something is acknowledged before the peer's SYN is here, the peer has finished
   *    before anything is acknowledged or, with linger still set, before our FIN, or everything is
   *    acknowledged after a passive close; or
   *  - inactive, without a FIN of ours that is acknowledged, or without the peer's.
   */
  lemma NamesExactly(rt: u16, recvCapacity: nat, sendCapacity: nat, isn: u32, ops: seq<Op>)
    requires CountsAreTelling(Run(NewConnection(rt, recvCapacity, sendCapacity, isn), ops).sender)
    ensures var c := Run(NewConnection(rt, recvCapacity, sendCapacity, isn), ops);
      && (forall n :: Summarize(c) == Official(n) <==> Stands(n, c))
      && ((forall n :: Summarize(c) != Official(n)) <==> Nameless(c))
  {
    hide Lifecycle;
    hide Summarize;
    hide Official;
    hide Stands;
    hide Nameless;
    hide CountsAreTelling;
    hide Run;
    var c0 := NewConnection(rt, recvCapacity, sendCapacity, isn);
    NewLifecycle(rt, recvCapacity, sendCapacity, isn);
    RunKeepsLifecycle(c0, ops);
    var c := Run(c0, ops);
    forall n ensures Summarize(c) == Official(n) <==> Stands(n, c) {
      NamesAt(c, n);
    }
    if Nameless(c) {
      forall n ensures Summarize(c) != Official(n) {
        NamesAt(c, n);
      }
    } else {
      var n := NameExists(c);
      assert Summarize(c) == Official(n);
    }
  }

  /** The summary has a name exactly where the history has, and the same one. */
  ghost predicate NamesAreTrue(c: Connection) {
    forall n :: Summarize(c) == Official(n) <==> Stands(n, c)
  }

  /** Where no name is at stake: before the peer's SYN, and, inactive, unless both sides look finished. */
  predicate NoNameAtStake(c: Connection) {
    !(if c.active then c.receiver.synArrived else c.sender.inFlight == 0 && c.receiver.Ended())
  }

  /** What the summary says when the counts mislead. */
  lemma MisledFacts(s: Sender)
    requires SenderInv(s) && !CountsAreTelling(s) && !s.stream.error && SomethingAcked(s)
    ensures SummarizeSender(s) == if s.finSent then SynAcked else if AllAcked(s) then FinAcked else FinSent
    ensures s.next > 0 && (s.inFlight == 0 <==> AllAcked(s))
  {
    hide LogInv;
    hide QueueInv;
    hide Tiles;
    hide Payloads;
    hide SomethingAcked;
    hide TotalLength;
    NothingAckedMeansAllInFlight(s);
    NothingAckedAtZero(s);
    SenderRuns.NoFlightMeansAllAcked(s);
    assert s.stream.Eof() ==> s.stream.Written() == s.stream.taken;
  }

  lemma MisledNames(c: Connection)
    requires Lifecycle(c) && !c.Outbound().error && SomethingAcked(c.sender) && !CountsAreTelling(c.sender)
    ensures NamesAreTrue(c) <==> NoNameAtStake(c)
  {
    hide SenderInv;
    hide ReceiverInv;
    hide OnlyWindowBlocks;
    hide SomethingAcked;
    hide AllAcked;
    hide SummarizeSender;
    hide CountsAreTelling;
    MisledFacts(c.sender);
    if c.receiver.Ended() {
      EndedHasSyn(c.receiver);
    }
    if NoNameAtStake(c) {
      forall n ensures Summarize(c) != Official(n) && !Stands(n, c) {
      }
    } else {
      var n := MisledName(c);
      assert !(Summarize(c) == Official(n) <==> Stands(n, c));
    }
  }

  /** A name that the summary gives or keeps back wrongly. */
  lemma MisledName(c: Connection) returns (n: OfficialState)
    requires Lifecycle(c) && !c.Outbound().error && SomethingAcked(c.sender) && !CountsAreTelling(c.sender)
    requires !NoNameAtStake(c)
    ensures !(Summarize(c) == Official(n) <==> Stands(n, c))
  {
    hide SenderInv;
    hide ReceiverInv;
    hide OnlyWindowBlocks;
    hide SomethingAcked;
    hide AllAcked;
    hide SummarizeSender;
    hide CountsAreTelling;
    MisledFacts(c.sender);
    if c.receiver.Ended() {
      EndedHasSyn(c.receiver);
    }
    n := if !c.active then CLOSED
         else if !c.receiver.Ended() then ESTABLISHED
         else if !c.linger then CLOSE_WAIT
         else if AllAcked(c.sender) then TIME_WAIT else CLOSING;
  }

  lemma EarlyNames(c: Connection)
    requires Lifecycle(c) && (c.Outbound().error || !SomethingAcked(c.sender))
    ensures NamesAreTrue(c)
  {
    hide ReceiverInv;
    hide OnlyWindowBlocks;
    hide SenderInv;
    hide SomethingAcked;
    hide TotalLength;
    NothingAckedMeansAllInFlight(c.sender);
    SenderRuns.NoFlightMeansAllAcked(c.sender);
    FinUsesNumber(c.sender);
    if c.receiver.Ended() {
      EndedHasSyn(c.receiver);
    }
  }

  /**
   * After every run, without exception: the summary gives the names that the history gives if and only
   * if the endpoint is broken, nothing is acknowledged yet, the counts are telling, or no name is at
   * stake.
   */
  lemma NamesAreTrueExactly(rt: u16, recvCapacity: nat, sendCapacity: nat, isn: u32, ops: seq<Op>)
    ensures var c := Run(NewConnection(rt, recvCapacity, sendCapacity, isn), ops);
      NamesAreTrue(c) <==>
        c.Outbound().error || !SomethingAcked(c.sender) || CountsAreTelling(c.sender) || NoNameAtStake(c)
  {
    hide Lifecycle;
    hide NamesAreTrue;
    hide NoNameAtStake;
    hide CountsAreTelling;
    hide SomethingAcked;
    hide Run;
    var c0 := NewConnection(rt, recvCapacity, sendCapacity, isn);
    NewLifecycle(rt, recvCapacity, sendCapacity, isn);
    RunKeepsLifecycle(c0, ops);
    var c := Run(c0, ops);
    if c.Outbound().error || !SomethingAcked(c.sender) {
      EarlyNames(c);
    } else if CountsAreTelling(c.sender) {
      TellingNames(c);
    } else {
      MisledNames(c);
    }
  }

  lemma TellingNames(c: Connection)
    requires Lifecycle(c) && CountsAreTelling(c.sender)
    ensures NamesAreTrue(c)
  {
    hide Lifecycle;
    hide Summarize;
    hide Official;
    hide Stands;
    hide CountsAreTelling;
    forall n ensures Summarize(c) == Official(n) <==> Stands(n, c) {
      NamesAt(c, n);
    }
  }

  lemma NewLifecycle(rt: u16, recvCapacity: nat, sendCapacity: nat, isn: u32)
    ensures Lifecycle(NewConnection(rt, recvCapacity, sendCapacity, isn))
  {
    hide SenderInv;
    hide OnlyWindowBlocks;
    NewCloseInv(rt, recvCapacity, sendCapacity, isn);
  }

  /** After connecting, an acknowledgment without a SYN leads to such a state. */
  lemma BareAckHasNoName()
    ensures var c := Step(StaleAck.AfterConnect(), Arrive(StaleAck.Acknowledgment(1)));
      && Summarize(c) == Summary(SynAcked, Listen, true, true)
      && forall n :: Summarize(c) != Official(n)
  {
    hide StaleAck.AfterConnect;
    hide FillWindow;
    hide StampAll;
    hide Unwrap;
    hide AckTimer;
    hide AckedLength;
    hide SenderInv;
    var c := StaleAck.AfterConnect();
    StaleAck.ConnectInv();
    StaleAck.ConnectFacts();
    StaleAck.SynFacts();
    StaleAck.UnwrapFacts();
    SenderRuns.LastAck(c.sender, 1, 1);
    var s := AcceptAck(c.sender, 1, 1);
    assert FillWindow(s) == s by { NothingToFill(s); }
  }

  lemma NothingToFill(s: Sender)
    requires s.next > 0 && s.stream.buffer == [] && !s.stream.inputEnded
    ensures FillWindow(s) == s
  {
  }

  lemma StaleLifecycle()
    ensures Lifecycle(StaleAck.AfterStaleAck())
  {
    hide Lifecycle;
    hide EndInputStream;
    hide SegmentArrives;
    hide WriteData;
    hide FillAndSend;
    NewLifecycle(1, 10, 10, 0);
    StepKeepsLifecycle(NewConnection(1, 10, 10, 0), Connect);
    StepKeepsLifecycle(StaleAck.AfterConnect(), Arrive(StaleAck.Opening()));
    StepKeepsLifecycle(StaleAck.AfterOpening(), Write([7]));
    StepKeepsLifecycle(Step(StaleAck.AfterOpening(), Write([7])), Arrive(StaleAck.Acknowledgment(2)));
    StepKeepsLifecycle(StaleAck.AfterByte(), Arrive(StaleAck.Acknowledgment(1)));
  }

  /** The endpoint that closes without its FIN ends in a state without a name. */
  lemma StaleCloseHasNoName()
    ensures var c := Step(Step(StaleAck.AfterStaleAck(), EndInput), Elapse(1));
      && !c.active && !c.Outbound().error
      && Summarize(c) == Summary(SynAcked, FinReceived, false, false)
      && forall n :: Summarize(c) != Official(n)
  {
    hide Lifecycle;
    hide StaleAck.AfterStaleAck;
    hide Step;
    hide Summarize;
    var c := StaleAck.AfterStaleAck();
    StaleLifecycle();
    StepKeepsLifecycle(c, EndInput);
    StepKeepsLifecycle(Step(c, EndInput), Elapse(1));
    StaleCloseFacts();
    FinishedSummary(Step(Step(c, EndInput), Elapse(1)));
  }

  lemma StaleCloseFacts()
    ensures var c := Step(Step(StaleAck.AfterStaleAck(), EndInput), Elapse(1));
      && !c.active && !c.Outbound().error && c.BothFinished() && !c.sender.finSent
      && |c.Outbound().Written()| == 1
  {
    hide StaleAck.AfterStaleAck;
    hide EndInputStream;
    hide Tick;
    StaleAck.StaleFacts();
    StaleAck.ClosesWithoutFin();
    var c := StaleAck.AfterStaleAck();
    StaleAck.EndInputStrands(c);
    TickStanding(EndInputStream(c), 1);
    StepReceiver(EndInputStream(c), Elapse(1));
    OneByteTaken(c.sender);
  }

  lemma OneByteTaken(s: Sender)
    requires SenderInv(s) && s.next == 2 && !s.finSent
    ensures |s.stream.taken| == 1
  {
  }

  /** Whoever writes behind a FIN that the peer has not answered with its own is told ESTABLISHED. */
  lemma LateByteLooksEstablished(c: Connection, n: OfficialState, data: seq<byte>)
    requires Lifecycle(c) && (n == FIN_WAIT_1 || n == FIN_WAIT_2) && Stands(n, c)
    requires c.Outbound().Accepted(|data|) > 0
    ensures var c' := Step(c, Write(data)); Summarize(c') == Official(ESTABLISHED) && Stands(n, c')
  {
    hide ReceiverInv;
    hide OnlyWindowBlocks;
    hide SenderInv;
    hide SomethingAcked;
    hide AllAcked;
    hide SummarizeSender;
    hide WriteData;
    if n == FIN_WAIT_2 {
      FinAckedMeansAcked(c.sender);
    }
    LateWrite(c, data);
    LateSummary(c.sender, Step(c, Write(data)).sender);
  }

  lemma FinAckedMeansAcked(s: Sender)
    requires SenderInv(s) && s.finSent && AllAcked(s)
    ensures SomethingAcked(s)
  {
    hide SenderInv;
    hide SomethingAcked;
    NothingAckedMeansAllInFlight(s);
    SenderRuns.NoFlightMeansAllAcked(s);
    FinUsesNumber(s);
  }

  /** A write behind the FIN changes the stream alone. */
  lemma LateWrite(c: Connection, data: seq<byte>)
    requires c.sender.finSent && c.Outbound().Accepted(|data|) > 0
    ensures var c' := Step(c, Write(data));
      && c' == c.(sender := c'.sender, segmentsOut := c'.segmentsOut, acks := c'.acks)
      && c'.sender == c.sender.(stream := c'.sender.stream, segmentsOut := [])
      && c'.Outbound().buffer != [] && c'.Outbound().error == c.Outbound().error
  {
    hide StampAll;
    var s := WriteStream(c.sender, data);
    assert s.stream.buffer != [];
    assert FillWindow(s) == s;
  }

  lemma LateSummary(s: Sender, s': Sender)
    requires SenderInv(s) && s.finSent && SomethingAcked(s) && !s.stream.error
    requires s' == s.(stream := s'.stream, segmentsOut := []) && s'.stream.buffer != [] && !s'.stream.error
    ensures SummarizeSender(s') == SynAcked && (AllAcked(s') <==> AllAcked(s)) && SomethingAcked(s')
  {
    assert SomethingAcked(s') by {
      var e :| e in s.log && e.seg.Length() > 0 && e.end <= s.maxAck;
      assert e in s'.log;
    }
    hide SenderInv;
    hide SomethingAcked;
    NothingAckedMeansAllInFlight(s);
    FinUsesNumber(s);
  }
}
