/** The coarse state of an endpoint, and what its counter comparisons say about the sender's history. */
module StateSummary {
  import opened Numbers
  import opened WrappingIntegers
  import opened Reception
  import opened Sending
  import opened SenderRuns
  import opened LateBytes

  datatype SenderState = SenderError | Closed | SynSent | SynAcked | FinSent | FinAcked

  datatype ReceiverState = ReceiverError | Listen | SynReceived | FinReceived

  function SummarizeReceiver(r: Receiver): ReceiverState {
    if r.reassembler.output.error then ReceiverError
    else if !r.synArrived then Listen
    else if r.reassembler.output.inputEnded then FinReceived
    else SynReceived
  }

  function SummarizeSender(s: Sender): SenderState {
    if s.stream.error then SenderError
    else if s.next == 0 then Closed
    else if s.next == s.inFlight then SynSent
    else if !s.stream.Eof() then SynAcked
    else if s.next < s.stream.BytesWritten() + 2 then SynAcked
    else if s.inFlight != 0 then FinSent
    else FinAcked
  }

  /** Some segment that takes up sequence numbers has been acknowledged completely. */
  ghost predicate SomethingAcked(s: Sender) {
    exists e :: e in s.log && e.seg.Length() > 0 && e.end <= s.maxAck
  }

  ghost predicate AllAcked(s: Sender) {
    s.maxAck == s.next
  }

  /** What the state ought to be, told from the history alone. */
  ghost function StateFromHistory(s: Sender): SenderState {
    if s.stream.error then SenderError
    else if s.log == [] || TotalLength(s.log) == 0 then Closed
    else if !SomethingAcked(s) then SynSent
    else if !s.finSent then SynAcked
    else if AllAcked(s) then FinAcked
    else FinSent
  }

  lemma {:induction false} UnackedLength(q: seq<Sent>, ackno: nat)
    ensures TotalLength(Unacked(q, ackno)) <= TotalLength(q)
    ensures TotalLength(Unacked(q, ackno)) == TotalLength(q) <==>
              forall e :: e in q && e.seg.Length() > 0 ==> e.end > ackno
  {
    if q == [] {
    } else {
      UnackedLength(q[1..], ackno);
      assert forall e :: e in q <==> e == q[0] || e in q[1..];
      if q[0].seg.Length() > 0 && q[0].end > ackno {
        assert Unacked(q, ackno) == [q[0]] + Unacked(q[1..], ackno);
        assert Unacked(q, ackno)[1..] == Unacked(q[1..], ackno);
      } else {
        assert Unacked(q, ackno) == Unacked(q[1..], ackno);
      }
    }
  }

  /** The whole number range is in flight exactly while no sent segment has been acknowledged. */
  lemma NothingAckedMeansAllInFlight(s: Sender)
    requires SenderInv(s)
    ensures s.next == s.inFlight <==> !SomethingAcked(s)
    ensures s.next == TotalLength(s.log)
  {
    hide LogInv;
    hide Tiles;
    hide Payloads;
    hide Unacked;
    hide TotalLength;
    TilesLength(s.log, 0, s.next);
    UnackedLength(s.log, s.maxAck);
  }

  /**
   * Before the FIN, the count of written bytes has not wrapped around behind a used-up stream; after
   * it, the stream is still used up.
   */
  predicate CountsAreTelling(s: Sender) {
    if s.finSent then s.stream.Eof() else !s.stream.Eof() || |s.stream.Written()| < TWO32
  }

  /**
   * The summary is what the history says if and only if the stream is broken, nothing is acknowledged
   * yet, or the counts are telling. So there are two ways to be wrong: a FIN that was not sent is
   * reported after 2^32 bytes, and a FIN that was sent is not when the stream accepts a byte behind it.
   */
  lemma SummaryMatchesHistory(s: Sender)
    requires SenderInv(s)
    ensures SummarizeSender(s) == StateFromHistory(s) <==>
              s.stream.error || !SomethingAcked(s) || CountsAreTelling(s)
  {
    hide LogInv;
    hide QueueInv;
    hide Tiles;
    hide Payloads;
    hide TotalLength;
    hide SomethingAcked;
    NothingAckedMeansAllInFlight(s);
    NoFlightMeansAllAcked(s);
    EmptyLength();
    assert s.stream.Eof() ==> s.stream.Written() == s.stream.taken;
    NothingAckedAtZero(s);
  }

  lemma NothingAckedAtZero(s: Sender)
    requires SenderInv(s)
    ensures SomethingAcked(s) ==> s.next > 0
  {
    hide NumberInv;
    hide QueueInv;
    hide CarriesStream;
  }

  // ------------------------------------------------------------------
  // Runs

  /**
   * In every run the summary is right if and only if nothing is acknowledged yet, or no byte was
   * accepted after the FIN was sent, or, before the FIN, the stream is not used up or has fewer than
   * 2^32 bytes.
   */
  lemma SummaryIsRight(capacity: nat, timeout: u16, isn: u32, events: seq<Event>)
    ensures var s := Run(NewSender(capacity, timeout, isn), events);
      SummarizeSender(s) == StateFromHistory(s) <==>
        || !SomethingAcked(s)
        || (if s.finSent then Late(NewSender(capacity, timeout, isn), events) == 0
            else !s.stream.Eof() || |s.stream.Written()| < TWO32)
  {
    hide SenderInv;
    hide Step;
    hide SummarizeSender;
    hide StateFromHistory;
    hide SomethingAcked;
    var s0 := NewSender(capacity, timeout, isn);
    NewSenderInv(capacity, timeout, isn);
    RunKeepsInv(s0, events);
    RunLate(s0, events, 0);
    NoError(s0, events);
    FinNeedsEnd(Run(s0, events));
    SummaryMatchesHistory(Run(s0, events));
  }

  lemma FinNeedsEnd(s: Sender)
    requires SenderInv(s)
    ensures s.finSent ==> s.stream.inputEnded
  {
  }

  lemma {:induction false} NoError(s: Sender, events: seq<Event>)
    requires !s.stream.error
    ensures !Run(s, events).stream.error
    decreases |events|
  {
    hide Fill;
    hide Unwrap;
    hide TickTimer;
    if events == [] {
    } else {
      FillGrows(s, Limit(s));
      NoError(Step(s, events[0]), events[1..]);
    }
  }
}
