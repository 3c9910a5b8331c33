/** The TCP sender and its retransmission timer as objects. */
module TcpSenders {
  import opened Numbers
  import opened WrappingIntegers
  import opened ByteStreams
  import opened Segments
  import opened Sending
  import opened SenderInvariant

  class RetransmissionTimer {
    const initialRto: u16
    var running: bool
    var rto: u32
    var baseRto: u32
    var retransmissions: u32
    var outstanding: seq<Sent>

    ghost function View(): Timer
      reads this
    {
      Timer(running, rto, baseRto, initialRto, retransmissions, outstanding)
    }

    constructor (timeout: u16)
      ensures View() == NewTimer(timeout)
    {
      initialRto, rto, baseRto, retransmissions, running, outstanding := timeout, timeout, timeout, 0, false, [];
    }

    method On()
      modifies `running
      ensures View() == old(View()).(running := true)
    {
      running := true;
    }

    method PushOutstanding(seg: Segment, end: nat)
      modifies `outstanding
      ensures View() == old(View()).(outstanding := old(outstanding) + [Sent(seg, end)])
    {
      outstanding := outstanding + [Sent(seg, end)];
    }

    /** Appends what has to be sent again to the outbound queue, which comes back as the result. */
    method TickHandle(ticks: nat, window: u16, queue: seq<Segment>) returns (queue': seq<Segment>)
      requires TimerInv(View())
      modifies this
      ensures View() == TickTimer(old(View()), ticks, window)
      ensures queue' == queue + Retransmitted(old(View()), ticks)
    {
      queue' := queue;
      if running {
        if rto <= ticks {
          queue' := queue' + [outstanding[0].seg];
          if window != 0 {
            retransmissions := (retransmissions + 1) % TWO32;
            baseRto := baseRto * 2 % TWO32;
          }
          rto := baseRto;
        } else {
          rto := rto - ticks;
        }
      }
    }

    /** Forgets what is acknowledged and returns its length in sequence space. */
    method AckHandle(ackno: nat) returns (ret: nat)
      modifies this
      ensures View() == AckTimer(old(View()), ackno)
      ensures ret == AckedLength(old(outstanding), ackno)
    {
      ret := 0;
      retransmissions := 0;
      while outstanding != []
        invariant ret + AckedLength(outstanding, ackno) == AckedLength(old(outstanding), ackno)
        invariant DropAcked(outstanding, ackno) == DropAcked(old(outstanding), ackno)
        invariant outstanding == old(outstanding)
          || (old(outstanding) != [] && old(outstanding)[0].end <= ackno && rto == baseRto == initialRto)
        invariant outstanding == old(outstanding) ==> rto == old(rto) && baseRto == old(baseRto)
        invariant |outstanding| <= |old(outstanding)|
        invariant running == old(running) && retransmissions == 0
        decreases |outstanding|
      {
        var endSeqno := outstanding[0].end;
        if endSeqno > ackno {
          break;
        }
        rto := initialRto;
        baseRto := initialRto;
        ret := ret + outstanding[0].seg.Length();
        outstanding := outstanding[1..];
      }
      if outstanding == [] {
        running := false;
      }
    }
  }

  class TcpSender {
    const isn: u32
    const stream: ByteStream
    const timer: RetransmissionTimer
    var segmentsOut: seq<Segment>
    var next: nat
    var inFlight: nat
    var window: u16
    var ackno: nat
    var finSent: bool
    ghost var log: seq<Sent>
    ghost var maxAck: nat

    ghost function Repr(): set<object> {
      {this, timer} + stream.Repr()
    }

    ghost predicate Valid()
      reads this, timer, stream, stream.buf
    {
      && stream.Valid()
      && SenderInv(View())
    }

    ghost function View(): Sender
      reads this, timer, stream, stream.buf
      requires stream.Valid()
    {
      Sender(isn, stream.View(), next, inFlight, window, ackno, finSent, timer.View(), segmentsOut, log, maxAck)
    }

    constructor (capacity: nat, timeout: u16, isn: u32)
      ensures Valid() && fresh(Repr() - {this})
      ensures View() == NewSender(capacity, timeout, isn)
    {
      this.isn := isn;
      stream := new ByteStream(capacity);
      timer := new RetransmissionTimer(timeout);
      segmentsOut, next, inFlight, window, ackno, finSent := [], 0, 0, 1, 0, false;
      log, maxAck := [], 0;
    }

    method FillWindow()
      requires Valid()
      modifies Repr()
      ensures Valid()
      ensures View() == Sending.FillWindow(old(View()))
    {
      hide SendOne;
      hide SenderInv;
      FillKeepsInv(View(), Limit(View()));
      var windowSize := if window > 0 then window else 1;
      var endSeqno := windowSize + ackno;
      while !finSent && next < endSeqno && (stream.sz != 0 || next == 0 || (stream.endInput && stream.sz == 0))
        invariant stream.Valid()
        invariant Fill(View(), endSeqno) == Fill(old(View()), endSeqno)
        decreases endSeqno - next
      {
        FillOne(endSeqno);
      }
    }

    /** One round of the loop: cuts, records and queues a segment. */
    method FillOne(endSeqno: nat)
      requires stream.Valid() && CanSend(View(), endSeqno)
      modifies Repr()
      ensures stream.Valid()
      ensures View() == SendOne(old(View()), endSeqno)
    {
      hide NextSegment;
      hide PayloadLength;
      hide Record;
      var seg := CutSegment(endSeqno);
      RecordSent(seg);
    }

    /** Numbers, queues and times a new segment. */
    method RecordSent(seg: Segment)
      requires stream.Valid()
      modifies this, timer
      ensures stream.Valid()
      ensures View() == Record(old(View()), seg)
    {
      timer.On();
      inFlight := inFlight + seg.Length();
      next := next + seg.Length();
      segmentsOut := segmentsOut + [seg];
      timer.PushOutstanding(seg, next);
      log := log + [Sent(seg, next)];
    }

    /** Takes the bytes for the next segment from the stream; the last one gets the FIN. */
    method CutSegment(endSeqno: nat) returns (seg: Segment)
      requires stream.Valid() && CanSend(View(), endSeqno)
      modifies `finSent, stream
      ensures stream.Valid()
      ensures seg == NextSegment(old(View()), endSeqno)
      ensures finSent == seg.header.fin
      ensures stream.View() == old(stream.View()).Pop(PayloadLength(old(View()), endSeqno))
    {
      hide Wrap;
      hide Ring;
      hide Slot;
      seg := Segment(DEFAULT_HEADER.(syn := next == 0, seqno := Wrap(next, isn)), []);
      var readLen := Min(endSeqno - next - Bit(seg.header.syn), stream.sz);
      readLen := Min(readLen, MAX_PAYLOAD_SIZE);
      assert readLen == PayloadLength(View(), endSeqno);
      var payload := stream.Read(readLen);
      seg := seg.(payload := payload);
      if seg.Length() < endSeqno - next {
        var eof := stream.endInput && stream.sz == 0;
        seg := seg.(header := seg.header.(fin := eof));
        finSent := eof;
      }
    }

    /** The flight size never underflows: only what is in flight can be acknowledged. */
    method AckReceived(ackno: u32, window: u16)
      requires Valid()
      modifies Repr()
      ensures Valid()
      ensures View() == Sending.AckReceived(old(View()), ackno, window)
    {
      hide Tiles;
      hide Unacked;
      hide TotalLength;
      hide Payloads;
      hide LogInv;
      hide Unwrap;
      var tmp := Unwrap(ackno, isn, next);
      if tmp <= next {
        AcceptAckKeepsInv(View(), tmp, window);
        DropAckedTiles(timer.outstanding, next - inFlight, next, tmp);
        this.ackno := tmp;
        this.window := window;
        var acked := timer.AckHandle(tmp);
        inFlight := inFlight - acked;
        maxAck := Max(maxAck, tmp);
      }
    }

    method Tick(ms: nat)
      requires Valid()
      modifies Repr()
      ensures Valid()
      ensures View() == TickSender(old(View()), ms)
    {
      TickKeepsInv(View(), ms);
      var queue := timer.TickHandle(ms, window, segmentsOut);
      segmentsOut := queue;
    }

    method SendEmptySegment()
      requires Valid()
      modifies Repr()
      ensures Valid()
      ensures View() == SendEmpty(old(View()))
    {
      SendEmptyKeepsInv(View());
      var seg := Segment(DEFAULT_HEADER.(seqno := Wrap(next, isn)), []);
      segmentsOut := segmentsOut + [seg];
      log := log + [Sent(seg, next)];
    }

    /** Writing through `stream_in()`. */
    method WriteInput(data: seq<byte>) returns (n: nat)
      requires Valid()
      modifies Repr()
      ensures Valid()
      ensures View() == WriteStream(old(View()), data)
      ensures n == old(View()).stream.Accepted(|data|)
    {
      hide SenderInv;
      WriteKeepsInv(View(), data);
      n := stream.Write(data);
    }

    /** Ending `stream_in()`. */
    method EndInput()
      requires Valid()
      modifies Repr()
      ensures Valid()
      ensures View() == EndStream(old(View()))
    {
      hide SenderInv;
      WriteKeepsInv(View(), []);
      stream.EndInput();
    }

    /** Marking `stream_in()` as broken. */
    method SetError()
      requires Valid()
      modifies Repr()
      ensures Valid()
      ensures View() == var s := old(View()); s.(stream := s.stream.SetError())
    {
      hide SenderInv;
      CosmeticChange(View(), segmentsOut, true);
      stream.SetError();
    }
  }
}
