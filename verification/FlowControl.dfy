/** The sender stays inside the window it was given, so that the receiver never has to drop a byte. */
module FlowControl {
  import opened Numbers
  import opened WrappingIntegers
  import opened Segments
  import opened Reassembly
  import opened Reception
  import opened Sending
  import opened SenderInvariant
  import opened ConnectionSteps
  import opened Exactness
  import opened Links

  /** The stream index behind the last byte of a segment that starts at `start`. */
  function PayloadEnd(seg: Segment, start: int): int {
    start - 1 + Bit(seg.header.syn) + |seg.payload|
  }

  /**
   * The payload ends inside the receiver's window, or it is the single byte that probes a closed
   * window and starts right behind it at most.
   */
  predicate InsideOrProbe(seg: Segment, start: int, r: Receiver) {
    || seg.payload == []
    || PayloadEnd(seg, start) <= WindowEnd(r.reassembler)
    || (!seg.header.syn && |seg.payload| == 1 && start <= 1 + WindowEnd(r.reassembler))
  }

  ghost predicate LogInside(log: seq<Sent>, r: Receiver) {
    forall i :: 0 <= i < |log| ==> InsideOrProbe(log[i].seg, log[i].Start(), r)
  }

  /** All that is stored lies in the window, and no one was promised more than the window. */
  ghost predicate Flow(s: Sender, r: Receiver, acks: set<AckSent>) {
    && InWindow(r.reassembler)
    && s.ackno + s.window <= RightEdge(r)
    && (forall x :: x in acks ==> x.ackno + x.win <= RightEdge(r))
    && LogInside(s.log, r)
  }

  /** The window only opens: what was inside stays inside. */
  lemma InsideStays(log: seq<Sent>, r: Receiver, r': Receiver)
    requires LogInside(log, r) && WindowEnd(r.reassembler) <= WindowEnd(r'.reassembler)
    ensures LogInside(log, r')
  {
    forall i | 0 <= i < |log| ensures InsideOrProbe(log[i].seg, log[i].Start(), r') {
      assert InsideOrProbe(log[i].seg, log[i].Start(), r);
    }
  }

  /** Bytes sent below the limit end inside the window, unless the window was closed. */
  lemma NewEntryInside(s: Sender, r: Receiver, acks: set<AckSent>, s': Sender, e: Sent)
    requires Link(s, r, acks) && s.ackno + s.window <= RightEdge(r)
    requires GoodEntry(s', e) && s'.isn == s.isn
    requires !s.finSent && s.next <= e.Start() && e.end <= Limit(s)
    ensures InsideOrProbe(e.seg, e.Start(), r)
  {
    hide NumberInv;
    hide LogInv;
    hide Tiles;
    hide Unacked;
    hide TotalLength;
    hide WellFormed;
    hide AllSlices;
    hide CarriesStream;
    assert !r.Ended();
  }

  lemma FlowEvolves(s: Sender, s': Sender, r: Receiver, acks: set<AckSent>)
    requires Link(s, r, acks) && Flow(s, r, acks) && SenderInv(s') && Evolves(s, s')
    ensures Flow(s', r, acks)
  {
    hide Link;
    hide InWindow;
    hide InsideOrProbe;
    hide GoodEntry;
    hide RightEdge;
    forall i | 0 <= i < |s'.log| ensures InsideOrProbe(s'.log[i].seg, s'.log[i].Start(), r) {
      if i < |s.log| {
        assert s'.log[i] == s.log[i];
      } else if s'.log[i].seg.payload != [] {
        NewEntryInside(s, r, acks, s', s'.log[i]);
      } else {
        EmptyInside(s'.log[i].seg, s'.log[i].Start(), r);
      }
    }
  }

  lemma EmptyInside(seg: Segment, start: int, r: Receiver)
    requires seg.payload == []
    ensures InsideOrProbe(seg, start, r)
  {
  }

  lemma FlowAck(s: Sender, r: Receiver, acks: set<AckSent>, x: AckSent, h: TcpHeader)
    requires Flow(s, r, acks)
    requires x in acks && Wrap(x.ackno, s.isn) == h.ackno && x.win == h.win && Near(x.ackno, s.next)
    ensures Flow(AckReceived(s, h.ackno, h.win), r, acks)
  {
    hide InWindow;
    hide LogInside;
    hide AckReceived;
    hide RightEdge;
    AckAtPosition(s, x, h);
  }

  /** A segment that is looked at ends inside the window. */
  lemma ArrivalInside(s: Sender, r: Receiver, acks: set<AckSent>, seg: Segment, start: nat)
    requires Link(s, r, acks)
    requires CarriesStream(seg, start, s.isn, s.stream.taken)
    requires InsideOrProbe(seg, start, r) && InReach(r, start, seg.header.syn)
    ensures PayloadEnd(seg, start) <= WindowEnd(r.reassembler)
  {
    hide Tiles;
    hide SenderInv;
    hide AllSlices;
    hide Sorted;
    hide StartAfter;
    hide Wrap;
  }

  lemma FlowReceive(s: Sender, r: Receiver, acks: set<AckSent>, e: Sent, seg: Segment)
    requires Link(s, r, acks) && Flow(s, r, acks)
    requires e in s.log && SameData(e.seg, seg) && GoodEntry(s, e) && Near(e.Start(), r.ackno)
    ensures Flow(s, Receive(r, seg), acks)
  {
    hide Link;
    hide LogInside;
    hide InWindow;
    hide Receive;
    ReceivedInWindow(s, r, acks, e, seg, 0);
    LinkReceiverInv(s, r, acks);
    ReceiveKeepsInv(r, seg);
    InsideStays(s.log, r, Receive(r, seg));
  }

  lemma LinkReceiverInv(s: Sender, r: Receiver, acks: set<AckSent>)
    requires Link(s, r, acks)
    ensures ReceiverInv(r) && (r.synArrived ==> r.isn == s.isn)
  {
  }

  /**
   * The receiver drops nothing: if it looks at a segment at all, it holds every byte of it
   * afterwards, besides what it held before, and no other byte.
   */
  lemma ReceivedInWindow(s: Sender, r: Receiver, acks: set<AckSent>, e: Sent, seg: Segment, i: nat)
    requires Link(s, r, acks) && Flow(s, r, acks)
    requires e in s.log && SameData(e.seg, seg) && GoodEntry(s, e) && Near(e.Start(), r.ackno)
    ensures InWindow(Receive(r, seg).reassembler)
    ensures var index := e.Start() - 1 + Bit(seg.header.syn);
      Holds(Receive(r, seg).reassembler, i) <==>
        || Holds(r.reassembler, i)
        || ((r.synArrived || seg.header.syn) && InReach(r, e.Start(), seg.header.syn)
            && index <= i < index + |seg.payload|)
  {
    hide Link;
    hide Receive;
    hide Push;
    hide IsSlice;
    hide Holds;
    hide InWindow;
    hide InsideOrProbe;
    LinkReceiverInv(s, r, acks);
    CarriesCopy(e.seg, seg, e.Start(), s.isn, s.stream.taken);
    ReceiveAtPosition(r, seg, e.Start(), s.isn, s.stream.taken);
    var r1 := NoteSyn(r, seg.header);
    if r1.synArrived && InReach(r1, e.Start(), seg.header.syn) {
      CopyInside(s.log, e, seg, r);
      ArrivalInside(s, r, acks, seg, e.Start());
      PushIsExact(r.reassembler, seg.payload, e.Start() - 1 + Bit(seg.header.syn), seg.header.fin, i);
    }
  }

  lemma CopyInside(log: seq<Sent>, e: Sent, seg: Segment, r: Receiver)
    requires LogInside(log, r) && e in log && SameData(e.seg, seg)
    ensures InsideOrProbe(seg, e.Start(), r)
  {
    var i :| 0 <= i < |log| && log[i] == e;
    assert InsideOrProbe(log[i].seg, log[i].Start(), r);
  }

  lemma FlowRead(s: Sender, r: Receiver, acks: set<AckSent>, n: nat)
    requires Flow(s, r, acks)
    ensures Flow(s, ReadOut(r, n), acks)
  {
    hide InsideOrProbe;
    InsideStays(s.log, r, ReadOut(r, n));
  }

  lemma FlowMoreAcks(s: Sender, r: Receiver, acks: set<AckSent>, acks': set<AckSent>)
    requires Link(s, r, acks) && Flow(s, r, acks) && acks' <= acks + {CurrentAck(r)}
    ensures Flow(s, r, acks')
  {
    hide SenderInv;
    hide InWindow;
    hide LogInside;
    hide Safe;
    assert CurrentAck(r).win <= r.WindowSize();
  }
}
