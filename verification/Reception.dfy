/** The step function of the TCP receiver, its window, and what a received segment changes. */
module Reception {
  import opened Numbers
  import opened WrappingIntegers
  import opened Reassembly
  import opened Segments

  /** `ackno` is absolute: 0 until the SYN has been accepted. */
  datatype Receiver = Receiver(reassembler: Reassembler, synArrived: bool, isn: u32, ackno: nat) {
    function WindowSize(): nat {
      reassembler.output.Free()
    }

    predicate Ended() {
      reassembler.output.inputEnded
    }
  }

  function NewReceiver(capacity: nat): Receiver {
    Receiver(New(capacity), false, 0, 0)
  }

  function NoteSyn(r: Receiver, h: TcpHeader): Receiver {
    if h.syn then r.(synArrived := true, isn := h.seqno) else r
  }

  /** Whether a segment at absolute position `idx` is looked at. */
  predicate InReach(r: Receiver, idx: nat, syn: bool) {
    !(idx == 0 && !syn) && idx < r.WindowSize() + r.ackno
  }

  function Deliver(r: Receiver, payload: seq<byte>, index: nat, fin: bool): Receiver {
    var a := Push(r.reassembler, payload, index, fin);
    r.(reassembler := a, ackno := a.next + Bit(r.synArrived) + Bit(a.output.inputEnded))
  }

  function Receive(r: Receiver, seg: Segment): Receiver {
    var r1 := NoteSyn(r, seg.header);
    var idx := Unwrap(seg.header.seqno, r1.isn, r1.ackno);
    if r1.synArrived && InReach(r1, idx, seg.header.syn)
    then Deliver(r1, seg.payload, idx + Bit(seg.header.syn) - 1, seg.header.fin)
    else r1
  }

  function ReadOut(r: Receiver, n: nat): Receiver {
    r.(reassembler := ReadFrom(r.reassembler, n))
  }

  /** What holds of every receiver, whatever arrives. */
  ghost predicate ReceiverInv(r: Receiver) {
    && WellFormed(r.reassembler)
    && (r.ackno == 0 ==> r.reassembler.next == 0 && !r.Ended())
    && (r.ackno > 0 ==> r.synArrived && r.ackno == r.reassembler.next + 1 + Bit(r.Ended()))
  }

  /** The first sequence number beyond the window. */
  function RightEdge(r: Receiver): nat {
    1 + r.reassembler.output.capacity + |r.reassembler.output.taken| + Bit(r.Ended())
  }

  lemma ReceiveKeepsInv(r: Receiver, seg: Segment)
    requires ReceiverInv(r)
    ensures ReceiverInv(Receive(r, seg))
    ensures r.ackno <= Receive(r, seg).ackno
    ensures RightEdge(r) <= RightEdge(Receive(r, seg))
    ensures r.synArrived ==> Receive(r, seg).synArrived
    ensures Receive(r, seg).reassembler.output.taken == r.reassembler.output.taken
    ensures Receive(r, seg).reassembler.output.capacity == r.reassembler.output.capacity
    ensures Receive(r, seg).reassembler.output.error == r.reassembler.output.error
  {
    hide Insert;
    hide Unwrap;
    hide Sorted;
    hide StartAfter;
    var r1 := NoteSyn(r, seg.header);
    var idx := Unwrap(seg.header.seqno, r1.isn, r1.ackno);
    if r1.synArrived && InReach(r1, idx, seg.header.syn) {
      var index := idx + Bit(seg.header.syn) - 1;
      PushKeepsShape(r.reassembler, seg.payload, index, seg.header.fin);
      InsertAdvances(MarkEof(r.reassembler, index + |seg.payload|, seg.header.fin), seg.payload, index);
    }
  }

  // ------------------------------------------------------------------
  // Segments of one stream

  /** `seg` is what the stream W, numbered from `isn`, has at absolute position `start`. */
  ghost predicate CarriesStream(seg: Segment, start: nat, isn: u32, W: seq<byte>) {
    && seg.header.seqno == Wrap(start, isn)
    && (seg.header.syn ==> start == 0)
    && IsSlice(W, start - 1 + Bit(seg.header.syn), seg.payload)
    && (seg.header.fin ==> start - 1 + Bit(seg.header.syn) + |seg.payload| == |W|)
  }

  /** Near enough for the 32-bit number to be read as the position it stands for. */
  predicate Near(position: int, checkpoint: nat) {
    0 <= position < TWO64 && checkpoint < TWO64 && Distance(position, checkpoint) < TWO31
  }

  /** A nearby segment is placed at the position it was cut from. */
  lemma ReceiveAtPosition(r: Receiver, seg: Segment, start: nat, isn: u32, W: seq<byte>)
    requires r.synArrived ==> r.isn == isn
    requires CarriesStream(seg, start, isn, W) && Near(start, r.ackno)
    ensures var r1 := NoteSyn(r, seg.header);
      && (r1.synArrived ==> r1.isn == isn)
      && Receive(r, seg) == (
        if r1.synArrived && InReach(r1, start, seg.header.syn)
        then Deliver(r1, seg.payload, start + Bit(seg.header.syn) - 1, seg.header.fin)
        else r1)
  {
    hide Push;
    hide IsSlice;
    hide Unwrap;
    UnwrapInvertsWrap(start, isn, r.ackno);
  }

  /** A segment of the stream W leaves the receiver in agreement with W. */
  lemma ReceiveIsSafe(r: Receiver, seg: Segment, start: nat, isn: u32, W: seq<byte>)
    requires ReceiverInv(r) && Safe(r.reassembler, W)
    requires r.synArrived ==> r.isn == isn
    requires CarriesStream(seg, start, isn, W) && Near(start, r.ackno)
    ensures Safe(Receive(r, seg).reassembler, W)
    ensures Receive(r, seg).synArrived ==> Receive(r, seg).isn == isn
    ensures Receive(r, seg).reassembler.eofSeen ==> r.reassembler.eofSeen || seg.header.fin
  {
    hide Insert;
    hide Unwrap;
    ReceiveAtPosition(r, seg, start, isn, W);
    var r1 := NoteSyn(r, seg.header);
    if r1.synArrived && InReach(r1, start, seg.header.syn) {
      var index := start + Bit(seg.header.syn) - 1;
      PushIsSafe(r.reassembler, seg.payload, index, seg.header.fin, W);
      InsertAdvances(MarkEof(r.reassembler, index + |seg.payload|, seg.header.fin), seg.payload, index);
    }
  }

  /** Bytes that connect to what is there and fit are written out at once. */
  lemma PushInOrder(r: Reassembler, data: seq<byte>, index: nat, eof: bool)
    requires r.output.Valid() && index <= r.next && |data| <= r.output.Free()
    ensures index + |data| <= Push(r, data, index, eof).next
    ensures eof ==> Push(r, data, index, eof).output.inputEnded
  {
    if |data| > r.next - index {
      DrainAdvances(Accept(MarkEof(r, index + |data|, eof), data[r.next - index..]));
    }
  }

  /**
   * A segment that starts at or before the acknowledgment, delivered to a receiver with an open
   * window that is large enough for it, is acknowledged to its end.
   */
  lemma ReceiveMakesProgress(r: Receiver, seg: Segment, start: nat, isn: u32, W: seq<byte>)
    requires ReceiverInv(r)
    requires r.synArrived ==> r.isn == isn
    requires CarriesStream(seg, start, isn, W) && Near(start, r.ackno)
    requires start == 0 ==> seg.header.syn
    requires start <= r.ackno && (r.Ended() ==> start + seg.Length() <= r.ackno)
    requires r.WindowSize() > 0 && |seg.payload| <= r.WindowSize()
    ensures start + seg.Length() <= Receive(r, seg).ackno
  {
    hide Receive;
    hide Push;
    hide IsSlice;
    ReceiveAtPosition(r, seg, start, isn, W);
    ReceiveKeepsInv(r, seg);
    if !r.Ended() {
      var r1 := NoteSyn(r, seg.header);
      PushInOrder(r.reassembler, seg.payload, start + Bit(seg.header.syn) - 1, seg.header.fin);
    }
  }
}
