/** Every step of the sender keeps its invariant; what a sender's history looks like in any run. */
module SenderInvariant {
  import opened Numbers
  import opened WrappingIntegers
  import opened ByteQueues
  import opened Segments
  import opened Reception
  import opened Sending

  /** Whatever bytes `s'` has sent since `s`, it sent them behind those of `s` and below its limit. */
  ghost predicate NewWithinLimit(s: Sender, s': Sender) {
    forall i :: |s.log| <= i < |s'.log| ==>
      || s'.log[i].seg.payload == []
      || (!s.finSent && s.next <= s'.log[i].Start() && s'.log[i].end <= Limit(s))
  }

  /** How a sender changes while no acknowledgment is accepted: its history only grows. */
  ghost predicate Evolves(s: Sender, s': Sender) {
    && s'.isn == s.isn
    && s'.ackno == s.ackno && s'.window == s.window && s'.maxAck == s.maxAck
    && s.next <= s'.next
    && s.log <= s'.log
    && s.stream.taken <= s'.stream.taken
    && s.stream.Written() <= s'.stream.Written()
    && (s.finSent ==> s'.finSent && s'.stream.taken == s.stream.taken)
    && NewWithinLimit(s, s')
  }

  lemma EvolvesTransitive(s: Sender, t: Sender, u: Sender)
    requires Evolves(s, t) && Evolves(t, u)
    ensures Evolves(s, u)
  {
  }

  lemma CarriesLonger(seg: Segment, start: nat, isn: u32, W: seq<byte>, W': seq<byte>)
    requires CarriesStream(seg, start, isn, W) && W <= W' && (seg.header.fin ==> W' == W)
    ensures CarriesStream(seg, start, isn, W')
  {
    if seg.payload != [] {
      var i := start - 1 + Bit(seg.header.syn);
      assert W'[i..i + |seg.payload|] == W[i..i + |seg.payload|];
    }
  }

  /** Older entries stay good while the sender evolves. */
  lemma LogStaysGood(s: Sender, s': Sender)
    requires LogInv(s) && Evolves(s, s')
    ensures forall i :: 0 <= i < |s.log| ==> GoodEntry(s', s.log[i])
  {
    forall i | 0 <= i < |s.log| ensures GoodEntry(s', s.log[i]) {
      assert GoodEntry(s, s.log[i]);
      CarriesLonger(s.log[i].seg, s.log[i].Start(), s.isn, s.stream.taken, s'.stream.taken);
    }
  }

  // ------------------------------------------------------------------
  // Sending one segment

  lemma SendOneEvolves(s: Sender, limit: nat)
    requires CanSend(s, limit) && limit == Limit(s)
    ensures Evolves(s, SendOne(s, limit))
    ensures SendOne(s, limit).stream.Written() == s.stream.Written()
  {
    hide NextSegment;
    hide PayloadLength;
    hide Wrap;
    PopKeepsWritten(s.stream, PayloadLength(s, limit));
  }

  lemma PopKeepsWritten(q: ByteQueue, n: nat)
    ensures q.Pop(n).Written() == q.Written() && q.taken <= q.Pop(n).taken
  {
    var k := Min(n, |q.buffer|);
    assert q.buffer == q.buffer[..k] + q.buffer[k..];
    assert (q.taken + q.buffer[..k]) + q.buffer[k..] == q.taken + (q.buffer[..k] + q.buffer[k..]);
  }

  lemma SendOneKeepsNumbers(s: Sender, limit: nat)
    requires NumberInv(s) && CanSend(s, limit)
    ensures NumberInv(SendOne(s, limit))
  {
    hide Tiles;
    hide Payloads;
    hide Wrap;
    var s' := SendOne(s, limit);
    var e := s'.log[|s.log|];
    TilesAppend(s.log, 0, s.next, e);
    PayloadsAppend(s.log, e);
  }

  /** The new segment carries the bytes just taken from the stream. */
  lemma NewEntryIsGood(s: Sender, limit: nat)
    requires NumberInv(s) && CanSend(s, limit)
    ensures var s' := SendOne(s, limit); GoodEntry(s', s'.log[|s.log|])
  {
    hide Tiles;
    hide Payloads;
    hide Wrap;
    var s' := SendOne(s, limit);
    var seg := NextSegment(s, limit);
    var i := s.next - 1 + Bit(seg.header.syn);
    assert i == |s.stream.taken|;
    assert s'.stream.taken == s.stream.taken + seg.payload;
    assert s'.stream.taken[i..i + |seg.payload|] == seg.payload;
  }

  lemma SendOneKeepsQueue(s: Sender, limit: nat)
    requires QueueInv(s) && TimerInv(s.timer) && CanSend(s, limit)
    ensures QueueInv(SendOne(s, limit)) && TimerInv(SendOne(s, limit).timer)
  {
    hide Tiles;
    hide Unacked;
    hide TotalLength;
    hide NextSegment;
    var s' := SendOne(s, limit);
    var e := s'.log[|s.log|];
    assert e.seg.Length() > 0;
    TilesAppend(s.timer.outstanding, s.next - s.inFlight, s.next, e);
    LengthAppend(s.timer.outstanding, e);
    UnackedAppend(s.log, e, s.maxAck);
  }

  lemma SendOneKeepsInv(s: Sender, limit: nat)
    requires SenderInv(s) && CanSend(s, limit) && limit == Limit(s)
    ensures SenderInv(SendOne(s, limit)) && Evolves(s, SendOne(s, limit))
  {
    hide NumberInv;
    hide QueueInv;
    hide GoodEntry;
    hide NextSegment;
    SendOneEvolves(s, limit);
    SendOneKeepsNumbers(s, limit);
    SendOneKeepsQueue(s, limit);
    LogStaysGood(s, SendOne(s, limit));
    NewEntryIsGood(s, limit);
  }

  lemma {:induction false} FillKeepsInv(s: Sender, limit: nat)
    requires SenderInv(s) && limit == Limit(s)
    ensures SenderInv(Fill(s, limit)) && Evolves(s, Fill(s, limit))
    decreases limit - s.next
  {
    hide SenderInv;
    hide SendOne;
    if CanSend(s, limit) {
      SendOneKeepsInv(s, limit);
      FillKeepsInv(SendOne(s, limit), limit);
      EvolvesTransitive(s, SendOne(s, limit), Fill(s, limit));
    }
  }

  // ------------------------------------------------------------------
  // The other steps

  lemma SendEmptyKeepsInv(s: Sender)
    requires SenderInv(s)
    ensures SenderInv(SendEmpty(s)) && Evolves(s, SendEmpty(s))
  {
    hide Tiles;
    hide Payloads;
    hide Unacked;
    hide TotalLength;
    hide Wrap;
    hide LogInv;
    var e := Sent(EmptySegment(s), s.next);
    TilesAppend(s.log, 0, s.next, e);
    PayloadsAppend(s.log, e);
    UnackedAppend(s.log, e, s.maxAck);
    SendEmptyLog(s);
  }

  lemma SendEmptyLog(s: Sender)
    requires LogInv(s)
    ensures LogInv(SendEmpty(s))
  {
    hide GoodEntry;
    LogStaysGood(s, SendEmpty(s));
    EmptyEntryIsGood(s);
  }

  lemma EmptyEntryIsGood(s: Sender)
    ensures GoodEntry(SendEmpty(s), Sent(EmptySegment(s), s.next))
  {
    hide Wrap;
  }

  lemma TickKeepsInv(s: Sender, ms: nat)
    requires SenderInv(s)
    ensures SenderInv(TickSender(s, ms)) && Evolves(s, TickSender(s, ms))
  {
    LogStaysGood(s, TickSender(s, ms));
  }

  /** Writing and ending the input leave everything already sent alone. */
  lemma WriteKeepsInv(s: Sender, data: seq<byte>)
    requires SenderInv(s)
    ensures SenderInv(WriteStream(s, data)) && Evolves(s, WriteStream(s, data))
    ensures SenderInv(EndStream(s)) && Evolves(s, EndStream(s))
  {
    hide SenderInv;
    WriteInv(s, data);
    EndInv(s);
  }

  lemma WriteInv(s: Sender, data: seq<byte>)
    requires SenderInv(s)
    ensures SenderInv(WriteStream(s, data)) && Evolves(s, WriteStream(s, data))
  {
    hide Tiles;
    hide Payloads;
    hide Unacked;
    hide TotalLength;
    hide CarriesStream;
    var more := data[..s.stream.Accepted(|data|)];
    assert s.stream.taken + (s.stream.buffer + more) == s.stream.Written() + more;
    LogStaysGood(s, WriteStream(s, data));
  }

  lemma EndInv(s: Sender)
    requires SenderInv(s)
    ensures SenderInv(EndStream(s)) && Evolves(s, EndStream(s))
  {
    hide Tiles;
    hide Payloads;
    hide Unacked;
    hide TotalLength;
    hide CarriesStream;
    LogStaysGood(s, EndStream(s));
  }

  lemma AcceptAckKeepsInv(s: Sender, ackno: nat, window: u16)
    requires SenderInv(s) && ackno <= s.next
    ensures SenderInv(AcceptAck(s, ackno, window))
  {
    hide Tiles;
    hide Payloads;
    hide Unacked;
    hide TotalLength;
    hide GoodEntry;
    var s' := AcceptAck(s, ackno, window);
    DropAckedTiles(s.timer.outstanding, s.next - s.inFlight, s.next, ackno);
    DropAckedIsUnacked(s.log, 0, s.next, s.maxAck, ackno);
    AckLogUnchanged(s, ackno, window);
  }

  lemma AckLogUnchanged(s: Sender, ackno: nat, window: u16)
    requires LogInv(s)
    ensures LogInv(AcceptAck(s, ackno, window))
  {
    forall i | 0 <= i < |s.log| ensures GoodEntry(AcceptAck(s, ackno, window), s.log[i]) {
      assert GoodEntry(s, s.log[i]);
    }
  }

  /** The error flag and the outbound queue are not part of the sender's invariant. */
  lemma CosmeticChange(s: Sender, queue: seq<Segment>, error: bool)
    requires SenderInv(s)
    ensures var s' := s.(segmentsOut := queue, stream := s.stream.(error := error)); SenderInv(s') && Evolves(s, s')
  {
    var s' := s.(segmentsOut := queue, stream := s.stream.(error := error));
    LogStaysGood(s, s');
  }
}
