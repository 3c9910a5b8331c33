/** Sender properties over whole runs: segmentation, the outstanding queue, and what a fill sends. */
module SenderRuns {
  import opened Numbers
  import opened WrappingIntegers
  import opened Reassembly
  import opened Reception
  import opened Sending
  import opened SenderInvariant

  /** Everything that can happen to a sender; `Collecting` is its owner emptying the outbound queue. */
  datatype Event =
    | Writing(data: seq<byte>)
    | Ending
    | Filling
    | SendingEmpty
    | Ticking(ms: nat)
    | Acking(ackno: u32, window: u16)
    | Collecting

  function Step(s: Sender, e: Event): Sender {
    match e
    case Writing(data) => WriteStream(s, data)
    case Ending => EndStream(s)
    case Filling => FillWindow(s)
    case SendingEmpty => SendEmpty(s)
    case Ticking(ms) => TickSender(s, ms)
    case Acking(ackno, window) => AckReceived(s, ackno, window)
    case Collecting => s.(segmentsOut := [])
  }

  function Run(s: Sender, events: seq<Event>): Sender
    decreases |events|
  {
    if events == [] then s else Run(Step(s, events[0]), events[1..])
  }

  lemma StepKeepsInv(s: Sender, e: Event)
    requires SenderInv(s)
    ensures SenderInv(Step(s, e))
  {
    hide SenderInv;
    match e {
      case Writing(data) => WriteKeepsInv(s, data);
      case Ending => WriteKeepsInv(s, []);
      case Filling => FillKeepsInv(s, Limit(s));
      case SendingEmpty => SendEmptyKeepsInv(s);
      case Ticking(ms) => TickKeepsInv(s, ms);
      case Acking(ackno, window) =>
        var a := Unwrap(ackno, s.isn, s.next);
        if a <= s.next {
          AcceptAckKeepsInv(s, a, window);
        }
      case Collecting => CollectKeepsInv(s);
    }
  }

  /** The outbound queue is not part of the invariant. */
  lemma CollectKeepsInv(s: Sender)
    requires SenderInv(s)
    ensures SenderInv(s.(segmentsOut := [])) && Evolves(s, s.(segmentsOut := []))
  {
    LogStaysGood(s, s.(segmentsOut := []));
  }

  /** The invariant holds in every run. */
  lemma {:induction false} RunKeepsInv(s: Sender, events: seq<Event>)
    requires SenderInv(s)
    ensures SenderInv(Run(s, events))
    decreases |events|
  {
    hide SenderInv;
    hide Step;
    if events == [] {
    } else {
      StepKeepsInv(s, events[0]);
      RunKeepsInv(Step(s, events[0]), events[1..]);
    }
  }

  lemma NewSenderInv(capacity: nat, timeout: u16, isn: u32)
    ensures SenderInv(NewSender(capacity, timeout, isn))
  {
  }

  // ------------------------------------------------------------------
  // The outstanding queue

  /** Entry `i` starts where the one before it ends. */
  predicate FollowsOn(q: seq<Sent>, from: int, i: nat)
    requires i < |q|
  {
    q[i].Start() == if i == 0 then from else q[i - 1].end
  }

  ghost predicate Consecutive(q: seq<Sent>, from: int) {
    forall i :: 0 <= i < |q| ==> FollowsOn(q, from, i)
  }

  lemma {:induction false} TilesAt(q: seq<Sent>, from: int, to: int, i: nat)
    requires Tiles(q, from, to) && i < |q|
    ensures FollowsOn(q, from, i)
    ensures from <= q[i].Start() && q[i].end <= to
  {
    if i > 0 {
      TilesAt(q[1..], q[0].end, to, i - 1);
    } else {
      TilesEnd(q[1..], q[0].end, to);
    }
  }

  lemma {:induction false} TilesEnd(q: seq<Sent>, from: int, to: int)
    requires Tiles(q, from, to)
    ensures from <= to
  {
    TilesLength(q, from, to);
  }

  lemma {:induction false} TilesOrdered(q: seq<Sent>, from: int, to: int, i: nat, j: nat)
    requires Tiles(q, from, to) && i < j < |q|
    ensures q[i].end <= q[j].Start()
  {
    if i > 0 {
      TilesOrdered(q[1..], q[0].end, to, i - 1, j - 1);
    } else {
      TilesAt(q[1..], q[0].end, to, j - 1);
    }
  }

  /**
   * In every run the outstanding segments lie one behind the other up to `next`, are exactly the
   * sent ones that no accepted acknowledgment has covered, and the flight size is their total
   * length, so that an acknowledgment never subtracts more than there is; the timer runs exactly
   * while there is one, so that a timeout always finds the front of the queue.
   */
  lemma OutstandingQueue(capacity: nat, timeout: u16, isn: u32, events: seq<Event>)
    ensures var s := Run(NewSender(capacity, timeout, isn), events);
      var q := s.timer.outstanding;
      && Consecutive(q, s.next - s.inFlight)
      && (q != [] ==> q[|q| - 1].end == s.next)
      && (forall e :: e in q <==> e in s.log && e.seg.Length() > 0 && e.end > s.maxAck)
      && s.inFlight == TotalLength(q)
      && (forall a: nat :: AckedLength(q, a) <= s.inFlight)
      && (s.timer.running <==> q != [])
  {
    NewSenderInv(capacity, timeout, isn);
    RunKeepsInv(NewSender(capacity, timeout, isn), events);
    var s := Run(NewSender(capacity, timeout, isn), events);
    QueueShape(s);
  }

  lemma QueueShape(s: Sender)
    requires SenderInv(s)
    ensures var q := s.timer.outstanding;
      && Consecutive(q, s.next - s.inFlight)
      && (q != [] ==> q[|q| - 1].end == s.next)
      && (forall e :: e in q <==> e in s.log && e.seg.Length() > 0 && e.end > s.maxAck)
      && (forall a: nat :: AckedLength(q, a) <= s.inFlight)
  {
    hide Tiles;
    hide Unacked;
    hide TotalLength;
    hide LogInv;
    hide NumberInv;
    var q, from := s.timer.outstanding, s.next - s.inFlight;
    forall i | 0 <= i < |q| ensures FollowsOn(q, from, i) {
      TilesAt(q, from, s.next, i);
    }
    if q != [] {
      TilesLast(q, s.next - s.inFlight, s.next);
    }
    forall e ensures e in q <==> e in s.log && e.seg.Length() > 0 && e.end > s.maxAck {
      UnackedInLog(s.log, s.maxAck, e);
    }
    forall a: nat ensures AckedLength(q, a) <= s.inFlight {
      DropAckedTiles(q, s.next - s.inFlight, s.next, a);
    }
  }

  lemma {:induction false} TilesLast(q: seq<Sent>, from: int, to: int)
    requires Tiles(q, from, to) && q != []
    ensures q[|q| - 1].end == to
  {
    if |q| > 1 {
      TilesLast(q[1..], q[0].end, to);
    }
  }

  /** Nothing is in flight exactly when everything is acknowledged. */
  lemma NoFlightMeansAllAcked(s: Sender)
    requires SenderInv(s)
    ensures s.inFlight == 0 <==> s.maxAck == s.next
  {
    hide Tiles;
    hide Payloads;
    hide Unacked;
    hide CarriesStream;
    hide TotalLength;
    TilesLength(s.timer.outstanding, s.next - s.inFlight, s.next);
    if s.maxAck == s.next && s.timer.outstanding != [] {
      UnackedInLog(s.log, s.maxAck, s.timer.outstanding[0]);
    }
    assert s.timer.outstanding == [] ==> TotalLength(s.timer.outstanding) == 0 by {
      EmptyLength();
    }
  }

  lemma EmptyLength()
    ensures TotalLength([]) == 0
  {
  }

  /** With nothing in flight the timer is idle. */
  lemma NoFlightMeansIdle(s: Sender)
    requires SenderInv(s) && s.inFlight == 0
    ensures s.timer.outstanding == [] && !s.timer.running && s.timer.retransmissions == 0
  {
    hide LogInv;
    hide Tiles;
    hide Payloads;
    hide Unacked;
    if s.timer.outstanding != [] {
      UnackedInLog(s.log, s.maxAck, s.timer.outstanding[0]);
    }
  }

  /** An accepted acknowledgment that leaves nothing in flight, while something was, is the newest possible. */
  lemma LastAck(s: Sender, ackno: nat, window: u16)
    requires SenderInv(s) && ackno <= s.next
    ensures AcceptAck(s, ackno, window).inFlight == 0 <==> s.inFlight == 0 || ackno == s.next
  {
    hide SenderInv;
    AcceptAckKeepsInv(s, ackno, window);
    NoFlightMeansAllAcked(s);
    NoFlightMeansAllAcked(AcceptAck(s, ackno, window));
    AckBounded(s);
  }

  lemma AckBounded(s: Sender)
    requires SenderInv(s)
    ensures s.ackno <= s.maxAck <= s.next
  {
  }

  // ------------------------------------------------------------------
  // Segmentation

  /**
   * In every run the segments made have consecutive sequence numbers, their payloads are together
   * exactly the bytes taken from the stream, SYN is on the first one that takes a number and on no
   * other, and FIN is on at most one, behind the last byte.
   */
  lemma SegmentationIsLossless(capacity: nat, timeout: u16, isn: u32, events: seq<Event>)
    ensures var s := Run(NewSender(capacity, timeout, isn), events);
      && Consecutive(s.log, 0)
      && Payloads(s.log) == s.stream.taken
      && (forall i :: 0 <= i < |s.log| && s.log[i].seg.Length() > 0 ==>
           (s.log[i].seg.header.syn <==> s.log[i].Start() == 0))
      && (forall i :: 0 <= i < |s.log| && s.log[i].seg.header.fin ==> s.finSent && s.log[i].end == s.next)
      && (forall i, j :: 0 <= i < j < |s.log| ==> !(s.log[i].seg.header.fin && s.log[j].seg.header.fin))
  {
    NewSenderInv(capacity, timeout, isn);
    RunKeepsInv(NewSender(capacity, timeout, isn), events);
    LogShape(Run(NewSender(capacity, timeout, isn), events));
  }

  lemma LogShape(s: Sender)
    requires SenderInv(s)
    ensures Consecutive(s.log, 0)
    ensures forall i :: 0 <= i < |s.log| && s.log[i].seg.Length() > 0 ==>
              (s.log[i].seg.header.syn <==> s.log[i].Start() == 0)
    ensures forall i :: 0 <= i < |s.log| && s.log[i].seg.header.fin ==> s.finSent && s.log[i].end == s.next
    ensures forall i, j :: 0 <= i < j < |s.log| ==> !(s.log[i].seg.header.fin && s.log[j].seg.header.fin)
  {
    hide Tiles;
    hide Payloads;
    hide QueueInv;
    hide IsSlice;
    forall i | 0 <= i < |s.log|
      ensures FollowsOn(s.log, 0, i)
      ensures s.log[i].seg.Length() > 0 ==> (s.log[i].seg.header.syn <==> s.log[i].Start() == 0)
      ensures s.log[i].seg.header.fin ==> s.finSent && s.log[i].end == s.next
    {
      TilesAt(s.log, 0, s.next, i);
      assert GoodEntry(s, s.log[i]);
    }
    forall i, j | 0 <= i < j < |s.log|
      ensures !(s.log[i].seg.header.fin && s.log[j].seg.header.fin)
    {
      TilesOrdered(s.log, 0, s.next, i, j);
    }
  }

  /** How many sequence numbers are left for bytes below `limit`. */
  function Room(s: Sender, limit: nat): int {
    limit - s.next - Bit(s.next == 0)
  }

  lemma SendOneEffect(s: Sender, limit: nat)
    requires NumberInv(s) && CanSend(s, limit)
    ensures var t, n := SendOne(s, limit), PayloadLength(s, limit);
      && n <= |s.stream.buffer| && n <= Room(s, limit)
      && t.stream.taken == s.stream.taken + s.stream.buffer[..n]
      && t.stream.buffer == s.stream.buffer[n..]
      && t.stream.inputEnded == s.stream.inputEnded
      && (t.finSent <==> s.stream.inputEnded && n == |s.stream.buffer| && n < Room(s, limit))
      && t.next == 1 + |t.stream.taken| + Bit(t.finSent)
      && limit - t.next == Room(s, limit) - n - Bit(t.finSent)
      && (n == |s.stream.buffer| || n == Room(s, limit) || CanSend(t, limit))
  {
    hide Tiles;
    hide Payloads;
    hide Wrap;
  }

  /**
   * A fill sends exactly what fits: the SYN if it is missing, as many bytes as there is room for,
   * and the FIN if and only if the input has ended and a number is left behind the last byte.
   */
  lemma {:induction false} FillSendsAllThatFits(s: Sender, limit: nat)
    requires SenderInv(s) && limit == Limit(s) && !s.finSent && s.next < limit
    ensures var s' := Fill(s, limit);
      var k := Min(|s.stream.buffer|, Room(s, limit));
      && s'.stream.taken == s.stream.taken + s.stream.buffer[..k]
      && s'.stream.buffer == s.stream.buffer[k..]
      && (s'.finSent <==> s.stream.inputEnded && |s.stream.buffer| < Room(s, limit))
      && s'.next == 1 + |s'.stream.taken| + Bit(s'.finSent)
      && s'.stream.inputEnded == s.stream.inputEnded
    decreases limit - s.next
  {
    hide LogInv;
    hide QueueInv;
    hide Tiles;
    hide Payloads;
    hide SendOne;
    hide PayloadLength;
    if CanSend(s, limit) {
      var t := SendOne(s, limit);
      SendOneEffect(s, limit);
      SendOneKeepsInv(s, limit);
      if CanSend(t, limit) {
        FillSendsAllThatFits(t, limit);
        SplitBuffer(s.stream.taken, s.stream.buffer, PayloadLength(s, limit),
                    Min(|t.stream.buffer|, Room(t, limit)));
      }
    }
  }

  lemma {:induction false} FillGrows(s: Sender, limit: nat)
    ensures var t := Fill(s, limit);
      t.inFlight >= s.inFlight && t.stream.inputEnded == s.stream.inputEnded && t.stream.error == s.stream.error
    decreases limit - s.next
  {
    hide NextSegment;
    if CanSend(s, limit) {
      FillGrows(SendOne(s, limit), limit);
    }
  }

  lemma FillOnce(s: Sender, limit: nat)
    requires CanSend(s, limit) && !CanSend(SendOne(s, limit), limit)
    ensures Fill(s, limit) == SendOne(s, limit)
  {
    hide SendOne;
    hide CanSend;
  }

  lemma SplitBuffer(taken: seq<byte>, buffer: seq<byte>, n: nat, k: nat)
    requires n + k <= |buffer|
    ensures (taken + buffer[..n]) + buffer[n..][..k] == taken + buffer[..n + k]
    ensures buffer[n..][k..] == buffer[n + k..]
  {
    assert buffer[..n + k] == buffer[..n] + buffer[n..][..k];
  }
}
