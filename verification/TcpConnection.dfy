/** A complete TCP endpoint as an object: a sender, a receiver and the queue to the network. */
module TcpConnections {
  import opened Numbers
  import opened WrappingIntegers
  import opened ByteStreams
  import opened Segments
  import opened Reassembly
  import opened Reception
  import opened Sending
  import opened SenderInvariant
  import opened TcpReceivers
  import opened TcpSenders
  import opened ConnectionSteps
  import ConnectionInvariant

  lemma StampStep(out: seq<Segment>, r: Receiver, queue: seq<Segment>)
    requires queue != []
    ensures out + [Stamp(r, queue[0])] + StampAll(r, queue[1..]) == out + StampAll(r, queue)
  {
  }

  class TcpConnection {
    const rtTimeout: u16
    const receiver: TcpReceiver
    const sender: TcpSender
    var segmentsOut: seq<Segment>
    var linger: bool
    var lingerTime: nat
    var active: bool
    ghost var acks: set<AckSent>

    ghost function Repr(): set<object> {
      {this} + receiver.Repr() + sender.Repr()
    }

    ghost predicate Valid()
      reads this, receiver, receiver.reassembler, receiver.reassembler.output, receiver.reassembler.output.buf
      reads sender, sender.timer, sender.stream, sender.stream.buf
    {
      && receiver.Valid() && sender.Valid()
      && receiver.Repr() !! sender.Repr()
      && this !in receiver.Repr() && this !in sender.Repr()
    }

    ghost function View(): Connection
      reads this, receiver, receiver.reassembler, receiver.reassembler.output, receiver.reassembler.output.buf
      reads sender, sender.timer, sender.stream, sender.stream.buf
      requires Valid()
    {
      Connection(rtTimeout, receiver.View(), sender.View(), segmentsOut, linger, lingerTime, active, acks)
    }

    constructor (rtTimeout: u16, recvCapacity: nat, sendCapacity: nat, isn: u32)
      ensures Valid() && fresh(Repr() - {this})
      ensures View() == NewConnection(rtTimeout, recvCapacity, sendCapacity, isn)
    {
      hide SenderInv;
      hide ReceiverInv;
      hide WellFormed;
      hide TotalSize;
      hide Ring;
      this.rtTimeout := rtTimeout;
      receiver := new TcpReceiver(recvCapacity);
      sender := new TcpSender(sendCapacity, rtTimeout, isn);
      segmentsOut, linger, lingerTime, active, acks := [], true, 0, true, {};
    }

    method UpdateQueue()
      requires Valid()
      modifies this, sender
      ensures Valid()
      ensures View() == ConnectionSteps.UpdateQueue(old(View()))
    {
      hide SenderInv;
      hide ReceiverInv;
      hide StampAll;
      hide CurrentAck;
      hide WellFormed;
      hide TotalSize;
      hide Ring;
      ghost var s, r := sender.View(), receiver.View();
      CosmeticChange(s, [], s.stream.error);
      if receiver.synArrived && sender.segmentsOut != [] {
        acks := acks + {CurrentAck(receiver.View())};
      }
      MoveSegments();
      assert receiver.View() == r;
      assert sender.View() == s.(segmentsOut := [], stream := s.stream.(error := s.stream.error));
    }

    /** Moves the sender's segments out one by one, with the current acknowledgment on them. */
    method MoveSegments()
      requires receiver.Valid() && sender !in receiver.Repr() && this !in receiver.Repr()
      modifies `segmentsOut, sender`segmentsOut
      ensures sender.segmentsOut == []
      ensures segmentsOut == old(segmentsOut) + StampAll(receiver.View(), old(sender.segmentsOut))
    {
      hide ReceiverInv;
      hide Stamp;
      hide StampAll;
      ConnectionInvariant.NoStamp(receiver.View());
      ghost var r := receiver.View();
      while sender.segmentsOut != []
        modifies `segmentsOut, sender`segmentsOut
        invariant segmentsOut + StampAll(r, sender.segmentsOut) == old(segmentsOut) + StampAll(r, old(sender.segmentsOut))
        decreases |sender.segmentsOut|
      {
        StampStep(segmentsOut, r, sender.segmentsOut);
        var stamped := StampedWith(sender.segmentsOut[0]);
        segmentsOut := segmentsOut + [stamped];
        sender.segmentsOut := sender.segmentsOut[1..];
      }
    }

    /** The segment as it goes out: with the receiver's acknowledgment, if there is one. */
    method StampedWith(seg: Segment) returns (stamped: Segment)
      requires receiver.Valid()
      ensures stamped == Stamp(receiver.View(), seg)
    {
      stamped := seg;
      var a := receiver.Ackno();
      if a.Some? {
        var w := receiver.WindowSize();
        stamped := seg.Stamped(a.value, w % TWO16);
      }
    }

    /** Cuts the connection off: only the reset is left to be sent. */
    method SendReset()
      requires Valid()
      modifies Repr()
      ensures Valid()
      ensures View() == SendRst(old(View()))
    {
      hide SenderInv;
      hide ReceiverInv;
      hide SetErrors;
      hide Wrap;
      hide WellFormed;
      hide TotalSize;
      hide Ring;
      while segmentsOut != []
        modifies `segmentsOut
        decreases |segmentsOut|
      {
        segmentsOut := segmentsOut[1..];
      }
      sender.SendEmptySegment();
      var seg := sender.segmentsOut[|sender.segmentsOut| - 1];
      segmentsOut := segmentsOut + [seg.(header := seg.header.(rst := true))];
      assert View() == old(View()).(segmentsOut := segmentsOut, sender := SendEmpty(old(View()).sender));
      assert segmentsOut == [seg.(header := seg.header.(rst := true))] && seg == EmptySegment(old(View()).sender);
      MarkErrors();
    }

    method MarkErrors()
      requires Valid()
      modifies Repr()
      ensures Valid()
      ensures View() == SetErrors(old(View()))
    {
      hide SenderInv;
      hide ReceiverInv;
      receiver.SetError();
      sender.SetError();
      active := false;
    }

    method TryCleanClosed()
      requires Valid()
      modifies `active
      ensures Valid()
      ensures View() == TryCleanClose(old(View()))
    {
      hide SenderInv;
      hide ReceiverInv;
      if receiver.reassembler.output.endInput && receiver.reassembler.output.sz == 0
         && sender.stream.endInput && sender.stream.sz == 0 && sender.inFlight == 0 {
        if !linger || lingerTime >= rtTimeout * 10 {
          active := false;
        }
      }
    }

    method FillWindowAndSend()
      requires Valid()
      modifies Repr()
      ensures Valid()
      ensures View() == FillAndSend(old(View()))
    {
      hide SenderInv;
      hide ReceiverInv;
      hide Fill;
      sender.FillWindow();
      assert View() == old(View()).(sender := FillWindow(old(View()).sender));
      hide ConnectionSteps.UpdateQueue;
      UpdateQueue();
    }

    method SendEmptyAndSend()
      requires Valid()
      modifies Repr()
      ensures Valid()
      ensures View() == EmptyAndSend(old(View()))
    {
      hide SenderInv;
      hide ReceiverInv;
      hide SendEmpty;
      sender.SendEmptySegment();
      assert View() == old(View()).(sender := SendEmpty(old(View()).sender));
      hide ConnectionSteps.UpdateQueue;
      UpdateQueue();
    }

    method Connect()
      requires Valid()
      modifies Repr()
      ensures Valid()
      ensures View() == Step(old(View()), Op.Connect)
    {
      FillWindowAndSend();
    }

    method Write(data: seq<byte>) returns (n: nat)
      requires Valid()
      modifies Repr()
      ensures Valid()
      ensures View() == Step(old(View()), Op.Write(data))
      ensures n == old(View()).Outbound().Accepted(|data|)
    {
      hide SenderInv;
      hide ReceiverInv;
      hide FillAndSend;
      n := sender.WriteInput(data);
      assert View() == old(View()).(sender := WriteStream(old(View()).sender, data));
      FillWindowAndSend();
    }

    method EndInput()
      requires Valid()
      modifies Repr()
      ensures Valid()
      ensures View() == Step(old(View()), Op.EndInput)
    {
      hide SenderInv;
      hide ReceiverInv;
      hide FillAndSend;
      sender.EndInput();
      assert View() == old(View()).(sender := EndStream(old(View()).sender));
      FillWindowAndSend();
    }

    method ReadInbound(n: nat) returns (data: seq<byte>)
      requires Valid()
      modifies Repr()
      ensures Valid()
      ensures View() == Step(old(View()), Op.Read(n))
      ensures data == old(View()).Inbound().Peek(n)
    {
      hide SenderInv;
      hide ReceiverInv;
      hide ReadOut;
      hide FillAndSend;
      hide SegmentArrives;
      hide Tick;
      data := receiver.ReadStream(n);
      assert View() == old(View()).(receiver := ReadOut(old(View()).receiver, n));
    }

    method Elapse(ms: nat)
      requires Valid()
      modifies Repr()
      ensures Valid()
      ensures View() == Step(old(View()), Op.Elapse(ms))
    {
      hide SenderInv;
      hide ReceiverInv;
      hide TickSender;
      hide SendRst;
      hide TryCleanClose;
      hide ConnectionSteps.UpdateQueue;
      TickAndSend(ms);
      lingerTime := lingerTime + ms;
      if sender.timer.retransmissions > MAX_RETX_ATTEMPTS {
        SendReset();
        return;
      }
      TryCleanClosed();
    }

    /** Passes time to the sender and sends what it wants to send again. */
    method TickAndSend(ms: nat)
      requires Valid()
      modifies Repr()
      ensures Valid() && lingerTime == old(lingerTime)
      ensures View() == ConnectionSteps.UpdateQueue(old(View()).(sender := TickSender(old(View()).sender, ms)))
    {
      hide SenderInv;
      hide ReceiverInv;
      hide TickSender;
      hide StampAll;
      hide CurrentAck;
      sender.Tick(ms);
      assert View() == old(View()).(sender := TickSender(old(View()).sender, ms));
      UpdateQueue();
    }

    method Arrive(seg: Segment)
      requires Valid()
      modifies Repr()
      ensures Valid()
      ensures View() == Step(old(View()), Op.Arrive(seg))
    {
      hide SenderInv;
      hide ReceiverInv;
      hide Receive;
      hide HandleAck;
      hide NotePassiveClose;
      hide TryCleanClose;
      hide Reply;
      hide SetErrors;
      lingerTime := 0;
      if seg.header.rst {
        MarkErrors();
        return;
      }
      receiver.SegmentReceived(seg);
      assert View() == old(View()).(lingerTime := 0, receiver := Receive(old(View()).receiver, seg));
      TakeAck(seg.header);
      NotePassive();
      TryCleanClosed();
      Answer(seg);
    }

    method TakeAck(h: TcpHeader)
      requires Valid()
      modifies Repr()
      ensures Valid()
      ensures View() == HandleAck(old(View()), h)
    {
      hide SenderInv;
      hide ReceiverInv;
      hide AckReceived;
      hide FillAndSend;
      if h.ack {
        sender.AckReceived(h.ackno, h.win);
        assert View() == old(View()).(sender := AckReceived(old(View()).sender, h.ackno, h.win));
        if sender.next != 0 {
          FillWindowAndSend();
        }
      }
    }

    method NotePassive()
      requires Valid()
      modifies `linger
      ensures Valid()
      ensures View() == NotePassiveClose(old(View()))
    {
      hide SenderInv;
      hide ReceiverInv;
      if receiver.reassembler.output.endInput && receiver.reassembler.output.sz == 0
         && !(sender.stream.endInput && sender.stream.sz == 0) {
        linger := false;
      }
    }

    method Answer(seg: Segment)
      requires Valid()
      modifies Repr()
      ensures Valid()
      ensures View() == Reply(old(View()), seg)
    {
      hide SenderInv;
      hide ReceiverInv;
      hide FillAndSend;
      hide EmptyAndSend;
      hide Wrap;
      var a := receiver.Ackno();
      if seg.Length() != 0 && a.Some? {
        if sender.next == 0 && seg.header.syn {
          FillWindowAndSend();
        } else {
          SendEmptyAndSend();
        }
      }
      if seg.Length() == 0 && a.Some? && seg.header.seqno == (a.value - 1) % TWO32 {
        SendEmptyAndSend();
      }
    }
  }
}
