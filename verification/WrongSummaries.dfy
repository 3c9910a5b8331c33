/** Runs after which the summary of the sender is wrong: a FIN reported too early, and one not reported. */
module WrongSummaries {
  import opened Numbers
  import opened WrappingIntegers
  import opened Sending
  import opened SenderInvariant
  import opened SenderRuns
  import opened LateBytes
  import opened StateSummary

  /** The SYN and `n` bytes are sent and acknowledged, and the window is one. */
  ghost predicate Settled(s: Sender, n: nat) {
    && SenderInv(s) && s.isn == 0 && s.window == 1
    && s.next == s.ackno == n + 1 && s.inFlight == 0 && !s.finSent
    && |s.stream.taken| == n && s.stream.buffer == [] && s.stream.capacity == 1
    && !s.stream.inputEnded && !s.stream.error
  }

  /** As before, but the last byte is still in flight. */
  ghost predicate OneAhead(s: Sender, n: nat) {
    && SenderInv(s) && s.isn == 0 && s.window == 1
    && s.next == n + 1 && s.ackno == n && s.inFlight == 1 && !s.finSent
    && |s.stream.taken| == n && s.stream.buffer == [] && s.stream.capacity == 1
    && !s.stream.inputEnded && !s.stream.error
  }

  function ByteEvents(): seq<Event> {
    [Writing([7]), Filling]
  }

  function Start(): Sender {
    NewSender(1, 0, 0)
  }

  /** Connecting, and then one byte after the other, each acknowledged before the next. */
  function Rounds(n: nat): seq<Event> {
    if n == 0 then [Filling, Acking(1, 1)] else Rounds(n - 1) + ByteEvents() + [Acking(Wrap(n + 1, 0), 1)]
  }

  /** The documented contract of the stream: no byte is written after the end of input. */
  predicate NoWriteAfterEnd(s: Sender, events: seq<Event>)
    decreases |events|
  {
    events == [] || (
      && (events[0].Writing? ==> !s.stream.inputEnded)
      && NoWriteAfterEnd(Step(s, events[0]), events[1..]))
  }

  lemma {:induction false} RunConcat(s: Sender, a: seq<Event>, b: seq<Event>)
    ensures Run(s, a + b) == Run(Run(s, a), b)
    ensures NoWriteAfterEnd(s, a + b) <==> NoWriteAfterEnd(s, a) && NoWriteAfterEnd(Run(s, a), b)
    decreases |a|
  {
    hide Step;
    if a == [] {
      assert a + b == b;
    } else {
      assert (a + b)[1..] == a[1..] + b;
      RunConcat(Step(s, a[0]), a[1..], b);
    }
  }

  lemma RunOfOne(s: Sender, e: Event)
    ensures Run(s, [e]) == Step(s, e)
    ensures NoWriteAfterEnd(s, [e]) <==> (e.Writing? ==> !s.stream.inputEnded)
  {
    hide Step;
  }

  lemma RunOfTwo(s: Sender, a: Event, b: Event)
    ensures Run(s, [a, b]) == Step(Step(s, a), b)
    ensures (a.Writing? ==> !s.stream.inputEnded) && !b.Writing? ==> NoWriteAfterEnd(s, [a, b])
  {
    hide Step;
    assert [a, b] == [a] + [b];
    RunConcat(s, [a], [b]);
    RunOfOne(s, a);
    RunOfOne(Step(s, a), b);
  }

  /** An acknowledgment of everything settles the sender. */
  lemma AckSettles(s: Sender, n: nat)
    requires OneAhead(s, n)
    ensures Settled(Step(s, Acking(Wrap(n + 1, 0), 1)), n)
  {
    hide SenderInv;
    hide AckTimer;
    hide AckedLength;
    hide Unwrap;
    hide Wrap;
    UnwrapAtCheckpoint(n + 1, 0);
    LastAck(s, n + 1, 1);
    AcceptAckKeepsInv(s, n + 1, 1);
  }

  /** One byte fills the window. */
  lemma ByteGoesOut(s: Sender, n: nat)
    requires Settled(s, n)
    ensures OneAhead(Run(s, ByteEvents()), n + 1)
    ensures NoWriteAfterEnd(s, ByteEvents())
  {
    hide SenderInv;
    hide Fill;
    var s1 := WriteStream(s, [7]);
    RunOfTwo(s, Writing([7]), Filling);
    WriteKeepsInv(s, [7]);
    assert s1.stream.buffer == [7];
    FillEffect(s1, n);
  }

  lemma FillEffect(s: Sender, n: nat)
    requires SenderInv(s) && s.isn == 0 && s.window == 1 && s.next == s.ackno == n + 1
    requires s.inFlight == 0 && !s.finSent && !s.stream.inputEnded && |s.stream.taken| == n && |s.stream.buffer| == 1
    ensures var t := FillWindow(s);
      && SenderInv(t) && t.isn == s.isn && t.window == s.window && t.ackno == s.ackno
      && t.next == n + 2 && t.inFlight == 1 && !t.finSent
      && |t.stream.taken| == n + 1 && t.stream == s.stream.(taken := t.stream.taken, buffer := [])
  {
    hide LogInv;
    hide QueueInv;
    hide Tiles;
    hide Payloads;
    hide Wrap;
    FillKeepsInv(s, Limit(s));
    assert SendOne(s, Limit(s)).next == n + 2;
    assert !CanSend(SendOne(s, Limit(s)), Limit(s));
  }

  lemma SynGoesOut()
    ensures OneAhead(Step(Start(), Filling), 0)
  {
    hide SenderInv;
    hide Fill;
    NewSenderInv(1, 0, 0);
    FillKeepsInv(Start(), 1);
    SynFacts(Start());
  }

  lemma SynFacts(s: Sender)
    requires s == Start()
    ensures var t := Fill(s, 1);
      && t.next == 1 && t.inFlight == 1 && t.stream == s.stream && !t.finSent
      && t.isn == s.isn && t.window == s.window && t.ackno == s.ackno
  {
    hide Wrap;
    hide Fill;
    assert CanSend(s, 1) && PayloadLength(s, 1) == 0 && s.stream.Pop(0) == s.stream;
    assert NextSegment(s, 1).Length() == 1 && !NextSegment(s, 1).header.fin;
    FillOnce(s, 1);
  }

  /** After `n` rounds `n` bytes are sent and acknowledged. */
  lemma {:induction false} RoundsSettle(n: nat)
    ensures Settled(Run(Start(), Rounds(n)), n)
    ensures NoWriteAfterEnd(Start(), Rounds(n))
  {
    hide Settled;
    hide OneAhead;
    hide Step;
    hide Run;
    hide NoWriteAfterEnd;
    if n == 0 {
      SynGoesOut();
      RunOfTwo(Start(), Filling, Acking(1, 1));
      assert Wrap(1, 0) == 1;
      AckSettles(Step(Start(), Filling), 0);
    } else {
      var before, ack := Rounds(n - 1), Acking(Wrap(n + 1, 0), 1);
      var s := Run(Start(), before);
      RoundsSettle(n - 1);
      RunConcat(Start(), before, ByteEvents());
      ByteGoesOut(s, n - 1);
      var t := Run(Start(), before + ByteEvents());
      RunConcat(Start(), before + ByteEvents(), [ack]);
      RunOfOne(t, ack);
      AckSettles(t, n);
    }
  }

  /** The input ends behind byte number 2^32, while that byte is in flight and fills the window. */
  function LongRun(): seq<Event> {
    Rounds(TWO32 - 1) + ByteEvents() + [Ending]
  }

  /**
   * A run that respects the contract of the stream, of 2^32 bytes: the count of written bytes has
   * wrapped around to zero, and the summary reports a FIN that was never sent.
   */
  lemma SummaryCanBeWrong()
    ensures var s := Run(Start(), LongRun());
      && NoWriteAfterEnd(Start(), LongRun())
      && |s.stream.Written()| == TWO32 && !s.finSent
      && SummarizeSender(s) == FinSent && StateFromHistory(s) == SynAcked
  {
    hide Settled;
    hide Run;
    hide NoWriteAfterEnd;
    hide Rounds;
    hide SenderInv;
    var n := TWO32 - 1;
    var before := Rounds(n) + ByteEvents();
    RoundsSettle(n);
    RunConcat(Start(), Rounds(n), ByteEvents());
    ByteGoesOut(Run(Start(), Rounds(n)), n);
    var t := Run(Start(), before);
    RunConcat(Start(), before, [Ending]);
    RunOfOne(t, Ending);
    WriteKeepsInv(t, []);
    SummaryOfLong(EndStream(t));
  }

  lemma SummaryOfLong(s: Sender)
    requires SenderInv(s) && s.next == TWO32 + 1 && s.inFlight == 1 && !s.finSent
    requires |s.stream.taken| == TWO32 && s.stream.Eof() && !s.stream.error
    ensures SummarizeSender(s) == FinSent && StateFromHistory(s) == SynAcked
  {
    hide SenderInv;
    hide SomethingAcked;
    hide TotalLength;
    NothingAckedMeansAllInFlight(s);
    EmptyLength();
    assert s.stream.taken + s.stream.buffer == s.stream.taken;
  }

  // ------------------------------------------------------------------
  // A byte behind the FIN

  function LateRun(): seq<Event> {
    Rounds(0) + [Ending, Filling] + [Writing([7])]
  }

  /** The FIN goes out, and the stream accepts one more byte: the summary takes the FIN back. */
  lemma LateByteHidesFin()
    ensures var s := Run(Start(), LateRun());
      && |s.stream.Written()| == 1 && s.finSent && LateIn(Run(Start(), Rounds(0) + [Ending, Filling]), [7]) == 1
      && SummarizeSender(s) == SynAcked && StateFromHistory(s) == FinSent
  {
    hide Run;
    hide Rounds;
    hide SenderInv;
    hide Fill;
    var s := Run(Start(), Rounds(0));
    RoundsSettle(0);
    RunConcat(Start(), Rounds(0), [Ending, Filling]);
    RunOfTwo(s, Ending, Filling);
    WriteKeepsInv(s, []);
    FinGoesOut(EndStream(s));
    var t := FillWindow(EndStream(s));
    RunConcat(Start(), Rounds(0) + [Ending, Filling], [Writing([7])]);
    RunOfOne(t, Writing([7]));
    WriteKeepsInv(t, [7]);
    SummaryOfLate(WriteStream(t, [7]));
  }

  lemma FinGoesOut(s: Sender)
    requires SenderInv(s) && s.window == 1 && s.next == s.ackno == 1 && s.inFlight == 0
    requires !s.finSent && s.stream.Eof() && s.stream.taken == []
    ensures var t := FillWindow(s);
      SenderInv(t) && t.next == 2 && t.inFlight == 1 && t.finSent && t.stream == s.stream
  {
    hide SenderInv;
    hide Wrap;
    hide Fill;
    FillKeepsInv(s, 2);
    assert CanSend(s, 2) && PayloadLength(s, 2) == 0 && s.stream.Pop(0) == s.stream;
    assert NextSegment(s, 2).Length() == 1 && NextSegment(s, 2).header.fin;
    FillOnce(s, 2);
  }

  lemma SummaryOfLate(s: Sender)
    requires SenderInv(s) && s.next == 2 && s.inFlight == 1 && s.finSent && s.stream.buffer != [] && !s.stream.error
    ensures SummarizeSender(s) == SynAcked && StateFromHistory(s) == FinSent
  {
    hide SenderInv;
    hide SomethingAcked;
    hide TotalLength;
    NothingAckedMeansAllInFlight(s);
    NoFlightMeansAllAcked(s);
    EmptyLength();
  }
}
