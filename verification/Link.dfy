/** One direction of a connection: a sender, the receiver at the other end, and the acknowledgments between. */
module Links {
  import opened Numbers
  import opened WrappingIntegers
  import opened Segments
  import opened Reassembly
  import opened Reception
  import opened Sending
  import opened SenderInvariant
  import opened ConnectionSteps
  import Exactness

  /**
   * The receiver holds a prefix of what the sender has taken from its stream, has not seen the end
   * before the sender sent it, and has given every acknowledgment that the sender has accepted.
   */
  ghost predicate Link(s: Sender, r: Receiver, acks: set<AckSent>) {
    && SenderInv(s)
    && ReceiverInv(r)
    && (r.synArrived ==> r.isn == s.isn && s.next > 0)
    && Safe(r.reassembler, s.stream.taken)
    && (r.reassembler.eofSeen ==> s.finSent)
    && (forall x :: x in acks ==> x.ackno <= r.ackno)
    && s.maxAck <= r.ackno
  }

  /** The receiver never acknowledges what has not been sent. */
  lemma AcknoBounded(s: Sender, r: Receiver, acks: set<AckSent>)
    requires Link(s, r, acks)
    ensures s.ackno <= s.maxAck <= r.ackno <= s.next
  {
    hide Tiles;
    hide Payloads;
    hide Unacked;
    hide TotalLength;
    hide LogInv;
    hide WellFormed;
    hide AllSlices;
  }

  lemma SafeLonger(r: Reassembler, S: seq<byte>, S': seq<byte>)
    requires Safe(r, S) && S <= S' && (r.eofSeen ==> S' == S)
    ensures Safe(r, S')
  {
    hide WellFormed;
    forall i | 0 <= i < |r.chunks| ensures IsSlice(S', r.chunks[i].start, r.chunks[i].data) {
      assert IsSlice(S, r.chunks[i].start, r.chunks[i].data);
      var c := r.chunks[i];
      if c.data != [] {
        assert S'[c.start..c.End()] == S[c.start..c.End()];
      }
    }
    assert S'[..r.next] == S[..r.next];
  }

  lemma LinkEvolves(s: Sender, s': Sender, r: Receiver, acks: set<AckSent>)
    requires Link(s, r, acks) && SenderInv(s') && Evolves(s, s')
    ensures Link(s', r, acks)
  {
    hide SenderInv;
    hide ReceiverInv;
    hide Safe;
    SafeLonger(r.reassembler, s.stream.taken, s'.stream.taken);
  }

  /** An acknowledgment that the receiver gave is read as the position it stands for. */
  lemma AckAtPosition(s: Sender, x: AckSent, h: TcpHeader)
    requires Wrap(x.ackno, s.isn) == h.ackno && Near(x.ackno, s.next)
    ensures AckReceived(s, h.ackno, h.win) == if x.ackno <= s.next then AcceptAck(s, x.ackno, h.win) else s
  {
    hide Unwrap;
    hide Wrap;
    hide AcceptAck;
    UnwrapInvertsWrap(x.ackno, s.isn, s.next);
  }

  lemma LinkAck(s: Sender, r: Receiver, acks: set<AckSent>, x: AckSent, h: TcpHeader)
    requires Link(s, r, acks)
    requires x in acks && Wrap(x.ackno, s.isn) == h.ackno && Near(x.ackno, s.next)
    ensures Link(AckReceived(s, h.ackno, h.win), r, acks)
  {
    hide SenderInv;
    hide ReceiverInv;
    hide Safe;
    hide AckReceived;
    AckAtPosition(s, x, h);
    if x.ackno <= s.next {
      AcceptAckKeepsInv(s, x.ackno, h.win);
    }
  }

  lemma LinkReceive(s: Sender, r: Receiver, acks: set<AckSent>, e: Sent, seg: Segment)
    requires Link(s, r, acks)
    requires e in s.log && SameData(e.seg, seg)
    requires GoodEntry(s, e) && Near(e.Start(), r.ackno)
    ensures Link(s, Receive(r, seg), acks)
  {
    hide SenderInv;
    hide ReceiverInv;
    hide Safe;
    hide Receive;
    hide IsSlice;
    CarriesCopy(e.seg, seg, e.Start(), s.isn, s.stream.taken);
    ReceiveKeepsInv(r, seg);
    ReceiveIsSafe(r, seg, e.Start(), s.isn, s.stream.taken);
    SynNeedsSyn(r, seg);
  }

  lemma CarriesCopy(seg: Segment, copy: Segment, start: nat, isn: u32, W: seq<byte>)
    requires CarriesStream(seg, start, isn, W) && SameData(seg, copy)
    ensures CarriesStream(copy, start, isn, W)
  {
  }

  /** Every SYN, and nothing else, sets the initial sequence number. */
  lemma SynNeedsSyn(r: Receiver, seg: Segment)
    ensures Receive(r, seg).synArrived <==> r.synArrived || seg.header.syn
    ensures Receive(r, seg).isn == if seg.header.syn then seg.header.seqno else r.isn
  {
    hide Push;
    hide Unwrap;
  }

  lemma LinkRead(s: Sender, r: Receiver, acks: set<AckSent>, n: nat)
    requires Link(s, r, acks)
    ensures Link(s, ReadOut(r, n), acks)
  {
    hide SenderInv;
    Exactness.ReadIsSafe(r.reassembler, n, s.stream.taken);
  }

  lemma LinkMoreAcks(s: Sender, r: Receiver, acks: set<AckSent>, acks': set<AckSent>)
    requires Link(s, r, acks) && acks' <= acks + {CurrentAck(r)}
    ensures Link(s, r, acks')
  {
    hide SenderInv;
    hide ReceiverInv;
    hide Safe;
  }

  /**
   * Acknowledged means delivered: once the FIN is out and nothing is in flight, the receiver's
   * stream has ended and holds everything the sender took from its own.
   */
  lemma AckedMeansDelivered(s: Sender, r: Receiver, acks: set<AckSent>)
    requires Link(s, r, acks) && s.finSent && s.inFlight == 0
    ensures r.Ended() && r.reassembler.output.Written() == s.stream.taken
  {
    hide Tiles;
    hide Payloads;
    hide Unacked;
    hide TotalLength;
    hide LogInv;
    hide WellFormed;
    hide AllSlices;
    AcknoBounded(s, r, acks);
  }

  /**
   * Retransmission makes progress: delivering the oldest outstanding segment to an open window that
   * is large enough acknowledges it.
   */
  lemma OldestMakesProgress(s: Sender, r: Receiver, acks: set<AckSent>, seg: Segment)
    requires Link(s, r, acks) && s.timer.outstanding != []
    requires SameData(s.timer.outstanding[0].seg, seg) && Near(s.next - s.inFlight, r.ackno)
    requires r.WindowSize() > 0 && |seg.payload| <= r.WindowSize()
    ensures s.timer.outstanding[0].end <= Receive(r, seg).ackno
  {
    hide Receive;
    hide IsSlice;
    hide Wrap;
    var e := s.timer.outstanding[0];
    OldestIsGood(s);
    AcknoBounded(s, r, acks);
    CarriesCopy(e.seg, seg, e.Start(), s.isn, s.stream.taken);
    EndedIsComplete(s, r, acks);
    ReceiveMakesProgress(r, seg, e.Start(), s.isn, s.stream.taken);
  }

  lemma OldestIsGood(s: Sender)
    requires SenderInv(s) && s.timer.outstanding != []
    ensures var e := s.timer.outstanding[0];
      && GoodEntry(s, e)
      && e.Start() == s.next - s.inFlight <= s.maxAck
      && e.seg.Length() > 0
  {
    hide GoodEntry;
    hide NumberInv;
    UnackedInLog(s.log, s.maxAck, s.timer.outstanding[0]);
  }

  lemma EndedIsComplete(s: Sender, r: Receiver, acks: set<AckSent>)
    requires Link(s, r, acks)
    ensures r.Ended() ==> r.ackno == s.next
  {
    hide Tiles;
    hide Payloads;
    hide QueueInv;
    hide LogInv;
    hide WellFormed;
    hide AllSlices;
  }
}
