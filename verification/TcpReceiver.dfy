/** The TCP receiver as an object over its reassembler. */
module TcpReceivers {
  import opened Numbers
  import opened Options
  import opened WrappingIntegers
  import opened Reassembly
  import opened StreamReassemblers
  import opened Segments
  import opened Reception

  class TcpReceiver {
    const capacity: nat
    const reassembler: StreamReassembler
    var synArrived: bool
    var isn: u32
    var ackno: nat

    ghost function Repr(): set<object> {
      {this} + reassembler.Repr()
    }

    ghost predicate Valid()
      reads this, reassembler, reassembler.output, reassembler.output.buf
    {
      && this !in reassembler.Repr()
      && reassembler.Valid()
      && reassembler.capacity == capacity
      && ReceiverInv(View())
    }

    ghost function View(): Receiver
      reads this, reassembler, reassembler.output, reassembler.output.buf
      requires reassembler.Valid()
    {
      Receiver(reassembler.View(), synArrived, isn, ackno)
    }

    constructor (capacity: nat)
      ensures Valid() && fresh(Repr() - {this})
      ensures View() == NewReceiver(capacity)
    {
      this.capacity := capacity;
      reassembler := new StreamReassembler(capacity);
      synArrived, isn, ackno := false, 0, 0;
    }

    method SegmentReceived(seg: Segment)
      requires Valid()
      modifies Repr()
      ensures Valid()
      ensures View() == Receive(old(View()), seg)
    {
      hide Deliver;
      hide Unwrap;
      hide ReceiverInv;
      hide WellFormed;
      hide TotalSize;
      hide Wrap;
      ReceiveKeepsInv(View(), seg);
      var header := seg.header;
      if header.syn {
        synArrived := true;
        isn := header.seqno;
      }
      if synArrived {
        var eof := header.fin;
        var idx := Unwrap(header.seqno, isn, ackno);
        var window := WindowSize();
        if (idx == 0 && !header.syn) || idx >= window + ackno {
          return;
        }
        PushPayload(seg.payload, idx - 1 + Bit(header.syn), eof);
      }
    }

    /** Hands a payload to the reassembler and moves the acknowledgment. */
    method PushPayload(payload: seq<byte>, index: nat, eof: bool)
      requires this !in reassembler.Repr() && reassembler.Valid() && reassembler.capacity == capacity
      modifies Repr()
      ensures reassembler.Valid()
      ensures View() == Deliver(old(View()), payload, index, eof)
    {
      hide Push;
      reassembler.PushSubstring(payload, index, eof);
      ackno := reassembler.nidx + Bit(synArrived) + Bit(reassembler.output.endInput);
    }

    /** The acknowledgment number to advertise: none before the SYN. */
    method Ackno() returns (a: Option<u32>)
      ensures a.Some? <==> synArrived
      ensures a.Some? ==> a.value == Wrap(ackno, isn)
    {
      a := if !synArrived then None else Some(Wrap(ackno, isn));
    }

    /** The window to advertise reaches from the acknowledgment to the right edge. */
    method WindowSize() returns (w: nat)
      requires reassembler.Valid() && reassembler.capacity == capacity
      ensures w == View().WindowSize()
      ensures ReceiverInv(View()) && ackno > 0 ==> ackno + w == RightEdge(View())
    {
      w := capacity - reassembler.output.sz;
    }

    /** Reading through `stream_out()`. */
    method ReadStream(n: nat) returns (data: seq<byte>)
      requires Valid()
      modifies Repr()
      ensures Valid()
      ensures View() == ReadOut(old(View()), n)
      ensures data == old(View()).reassembler.output.Peek(n)
    {
      data := reassembler.output.Read(n);
    }

    /** Marking `stream_out()` as broken. */
    method SetError()
      requires Valid()
      modifies Repr()
      ensures Valid()
      ensures View() == var r := old(View()); r.(reassembler := r.reassembler.(output := r.reassembler.output.SetError()))
    {
      reassembler.output.SetError();
    }
  }
}
