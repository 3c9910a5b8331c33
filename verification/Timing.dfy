/** When the retransmission timer restarts, when it expires, and what a closed window changes. */
module Timing {
  import opened Numbers
  import opened WrappingIntegers
  import opened Segments
  import opened Reception
  import opened Sending
  import opened ConnectionSteps
  import opened ConnectionInvariant
  import opened Backoff
  import SenderRuns

  // ------------------------------------------------------------------
  // Acknowledgments

  /** Some segment that no accepted acknowledgment covers completely is covered by this one. */
  ghost predicate CoversNew(s: Sender, ackno: nat) {
    exists e :: e in s.log && e.seg.Length() > 0 && s.maxAck < e.end <= ackno
  }

  /** The front of the queue ends first. */
  lemma FrontEndsFirst(s: Sender, e: Sent)
    requires SenderInv(s) && e in s.timer.outstanding
    ensures s.timer.outstanding[0].end <= e.end
  {
    hide NumberInv;
    hide LogInv;
    hide Tiles;
    hide Unacked;
    hide TotalLength;
    var q := s.timer.outstanding;
    var j :| 0 <= j < |q| && q[j] == e;
    if j > 0 {
      SenderRuns.TilesOrdered(q, s.next - s.inFlight, s.next, 0, j);
    }
  }

  lemma PopsExactly(s: Sender, ackno: nat)
    requires SenderInv(s)
    ensures s.timer.outstanding != [] && s.timer.outstanding[0].end <= ackno <==> CoversNew(s, ackno)
  {
    hide NumberInv;
    hide LogInv;
    hide Tiles;
    hide Unacked;
    hide TotalLength;
    var q := s.timer.outstanding;
    if q != [] {
      UnackedInLog(s.log, s.maxAck, q[0]);
    }
    if CoversNew(s, ackno) {
      var e :| e in s.log && e.seg.Length() > 0 && s.maxAck < e.end <= ackno;
      UnackedInLog(s.log, s.maxAck, e);
      FrontEndsFirst(s, e);
    }
  }

  /**
   * Every accepted acknowledgment clears the counter. It restarts the timer with the initial timeout
   * exactly if it covers a segment that none before it has covered; otherwise the timer goes on.
   */
  lemma AckRestartsExactly(s: Sender, ackno: nat, window: u16)
    requires SenderInv(s) && ackno <= s.next
    ensures var t, t' := s.timer, AcceptAck(s, ackno, window).timer;
      && t'.retransmissions == 0 && t'.initialRto == t.initialRto
      && (if CoversNew(s, ackno) then t'.rto == t'.baseRto == t.initialRto
          else t'.rto == t.rto && t'.baseRto == t.baseRto)
  {
    hide SenderInv;
    hide CoversNew;
    hide DropAcked;
    hide AckedLength;
    PopsExactly(s, ackno);
  }

  /** The segment brings an acknowledgment that is accepted. */
  predicate Accepted(c: Connection, seg: Segment) {
    seg.header.ack && !seg.header.rst && AckOf(c, seg) <= c.sender.next
  }

  function AckOf(c: Connection, seg: Segment): nat {
    Unwrap(seg.header.ackno, c.sender.isn, c.sender.next)
  }

  lemma HandleAckClock(c: Connection, h: TcpHeader)
    ensures SameTiming(if h.ack then AckReceived(c.sender, h.ackno, h.win) else c.sender, HandleAck(c, h).sender)
  {
    hide Fill;
    hide StampAll;
    hide Unwrap;
    hide AckTimer;
    var s := AckReceived(c.sender, h.ackno, h.win);
    FillKeepsClock(s, Limit(s));
  }

  /** After the arrival the clock is the one that the acknowledgment leaves. */
  lemma ArrivalClock(c: Connection, seg: Segment)
    requires Accepted(c, seg)
    ensures SameTiming(AcceptAck(c.sender, AckOf(c, seg), seg.header.win), Step(c, Arrive(seg)).sender)
  {
    hide Receive;
    hide HandleAck;
    hide Reply;
    hide Unwrap;
    hide AckTimer;
    var c1 := c.(lingerTime := 0, receiver := Receive(c.receiver, seg));
    HandleAckClock(c1, seg.header);
    ReplyKeepsClock(TryCleanClose(NotePassiveClose(HandleAck(c1, seg.header))), seg);
  }

  /** An arrival moves the acknowledgment and the window of the sender exactly if it brings an accepted one. */
  lemma AckIsTaken(c: Connection, seg: Segment)
    requires SenderInv(c.sender)
    ensures var s, s' := c.sender, Step(c, Arrive(seg)).sender;
      if Accepted(c, seg) then
        s'.ackno == AckOf(c, seg) && s'.window == seg.header.win && s'.maxAck == Max(s.maxAck, AckOf(c, seg))
      else s'.ackno == s.ackno && s'.window == s.window && s'.maxAck == s.maxAck
  {
    hide SenderInv;
    hide Step;
    hide Unwrap;
    hide AckTimer;
    StepSender(c, Arrive(seg));
  }

  /**
   * From an acknowledgment that covers something new on, the backoff starts afresh: `k` expirations
   * take at least 2^k - 1 initial timeouts, and a reset at least 511.
   */
  lemma RestartTakesTime(c: Connection, seg: Segment, ops: seq<Op>, ms: nat)
    requires SenderInv(c.sender) && Accepted(c, seg) && CoversNew(c.sender, AckOf(c, seg)) && seg.header.win != 0
    requires NoAcksAccepted(Step(c, Arrive(seg)), ops) && Run(Step(c, Arrive(seg)), ops).active
    ensures var c1 := Step(c, Arrive(seg));
      var t, k := Run(c1, ops).sender.timer, Timeouts(c1, ops);
      && t.retransmissions == k && t.baseRto == c.sender.timer.initialRto * Pow2(k)
      && Elapsed(ops) >= c.sender.timer.initialRto * (Pow2(k) - 1)
      && (Tick(Run(c1, ops), ms).sender.timer.retransmissions > MAX_RETX_ATTEMPTS ==>
           Elapsed(ops) + ms >= 511 * c.sender.timer.initialRto)
  {
    hide SenderInv;
    hide CoversNew;
    hide Accepted;
    hide AckOf;
    hide Step;
    hide Run;
    hide NoAcksAccepted;
    hide Timeouts;
    hide Tick;
    hide AckTimer;
    hide AckedLength;
    ArrivalClock(c, seg);
    AcceptedIsBounded(c, seg);
    AckRestartsExactly(c.sender, AckOf(c, seg), seg.header.win);
    FreshResetTakesTime(Step(c, Arrive(seg)), ops, ms);
  }

  lemma AcceptedIsBounded(c: Connection, seg: Segment)
    requires Accepted(c, seg)
    ensures AckOf(c, seg) <= c.sender.next
  {
  }

  // ------------------------------------------------------------------
  // Expiry

  lemma {:induction false} FillKeepsRunning(s: Sender, limit: nat)
    ensures s.timer.running ==> Fill(s, limit).timer.running
    decreases limit - s.next
  {
    if CanSend(s, limit) {
      FillKeepsRunning(SendOne(s, limit), limit);
    }
  }

  lemma AnswerKeepsRunning(c: Connection, h: TcpHeader, seg: Segment)
    requires h.ack ==> Unwrap(h.ackno, c.sender.isn, c.sender.next) > c.sender.next
    ensures c.sender.timer.running ==> HandleAck(c, h).sender.timer.running && Reply(c, seg).sender.timer.running
  {
    hide Fill;
    hide StampAll;
    hide Unwrap;
    hide Wrap;
    FillKeepsRunning(c.sender, Limit(c.sender));
  }

  lemma ReplyKeepsRunning(c: Connection, seg: Segment)
    ensures c.sender.timer.running ==> Reply(c, seg).sender.timer.running
  {
    hide Fill;
    hide StampAll;
    hide Wrap;
    FillKeepsRunning(c.sender, Limit(c.sender));
  }

  lemma ArrivalKeepsRunning(c: Connection, seg: Segment)
    requires NoAckAccepted(c, Arrive(seg))
    ensures c.sender.timer.running ==> SegmentArrives(c, seg).sender.timer.running
  {
    hide Receive;
    hide Unwrap;
    hide HandleAck;
    hide Reply;
    if !seg.header.rst {
      var c1 := c.(lingerTime := 0, receiver := Receive(c.receiver, seg));
      AnswerKeepsRunning(c1, seg.header, seg);
      ReplyKeepsRunning(TryCleanClose(NotePassiveClose(HandleAck(c1, seg.header))), seg);
    }
  }

  lemma StepKeepsRunning(c: Connection, op: Op)
    requires NoAckAccepted(c, op)
    ensures c.sender.timer.running ==> Step(c, op).sender.timer.running
  {
    hide Fill;
    hide StampAll;
    hide SegmentArrives;
    hide Wrap;
    match op {
      case Connect => FillKeepsRunning(c.sender, Limit(c.sender));
      case Write(data) => FillKeepsRunning(WriteStream(c.sender, data), Limit(c.sender));
      case EndInput => FillKeepsRunning(EndStream(c.sender), Limit(c.sender));
      case Arrive(seg) => ArrivalKeepsRunning(c, seg);
      case Elapse(ms) =>
      case Read(n) =>
      case Collect =>
    }
  }

  /**
   * A running timer expires in time, and not before: over any run without an accepted acknowledgment it
   * has not expired if and only if less time has passed than was left, and the rest is still to come.
   */
  lemma {:induction false} ExpiresInTime(c: Connection, ops: seq<Op>)
    requires NoAcksAccepted(c, ops) && c.sender.timer.running && c.sender.timer.rto > 0
    ensures Timeouts(c, ops) == 0 <==> Elapsed(ops) < c.sender.timer.rto
    ensures Timeouts(c, ops) == 0 ==> Run(c, ops).sender.timer.rto == c.sender.timer.rto - Elapsed(ops)
    decreases |ops|
  {
    hide Step;
    hide NoAckAccepted;
    if ops == [] {
    } else {
      StepClock(c, ops[0]);
      StepKeepsRunning(c, ops[0]);
      if !(ops[0].Elapse? && TimesOut(c.sender.timer, ops[0].ms)) {
        ExpiresInTime(Step(c, ops[0]), ops[1..]);
      }
    }
  }

  // ------------------------------------------------------------------
  // A closed window

  /** What was left of the first timeout, and `k` times the same timeout again. */
  function ProbeTime(left: nat, base: nat, k: nat): nat {
    if k == 0 then left else base + ProbeTime(left, base, k - 1)
  }

  /** The account of a timer that probes a closed window. */
  ghost predicate Probing(t: Timer, t0: Timer, elapsed: nat, k: nat) {
    && t.retransmissions == t0.retransmissions && t.baseRto == t0.baseRto
    && (k > 0 ==> t.rto <= t.baseRto)
    && elapsed + t.rto >= ProbeTime(t0.rto, t0.baseRto, k)
  }

  lemma TickProbes(t: Timer, t0: Timer, elapsed: nat, k: nat, ms: nat)
    requires Probing(t, t0, elapsed, k)
    ensures Probing(TickTimer(t, ms, 0), t0, elapsed + ms, k + Bit(TimesOut(t, ms)))
  {
  }

  lemma {:induction false} RunProbes(c: Connection, ops: seq<Op>, t0: Timer, elapsed: nat, k: nat)
    requires NoAcksAccepted(c, ops) && c.sender.window == 0 && Probing(c.sender.timer, t0, elapsed, k)
    ensures var c' := Run(c, ops);
      c'.sender.window == 0 && Probing(c'.sender.timer, t0, elapsed + Elapsed(ops), k + Timeouts(c, ops))
    decreases |ops|
  {
    hide Step;
    hide NoAckAccepted;
    hide TickTimer;
    hide TimesOut;
    hide ProbeTime;
    if ops == [] {
    } else {
      var op := ops[0];
      StepClock(c, op);
      if op.Elapse? {
        TickProbes(c.sender.timer, t0, elapsed, k, op.ms);
        RunProbes(Step(c, op), ops[1..], t0, elapsed + op.ms, k + Bit(TimesOut(c.sender.timer, op.ms)));
      } else {
        RunProbes(Step(c, op), ops[1..], t0, elapsed, k);
      }
    }
  }

  /**
   * A closed window is probed for ever: over any run without an accepted acknowledgment the counter and
   * the timeout stay as they are, each expiration takes a whole timeout, and no tick gives up.
   */
  lemma ClosedWindowNeverGivesUp(c: Connection, ops: seq<Op>, ms: nat)
    requires NoAcksAccepted(c, ops) && c.sender.window == 0 && c.sender.timer.retransmissions <= MAX_RETX_ATTEMPTS
    ensures var t0, t, k := c.sender.timer, Run(c, ops).sender.timer, Timeouts(c, ops);
      && t.retransmissions == t0.retransmissions && t.baseRto == t0.baseRto
      && (k > 0 ==> Elapsed(ops) >= ProbeTime(t0.rto, t0.baseRto, k - 1))
      && Tick(Run(c, ops), ms).sender.timer.retransmissions <= MAX_RETX_ATTEMPTS
  {
    hide Step;
    hide NoAcksAccepted;
    hide Timeouts;
    hide Tick;
    hide TickTimer;
    RunProbes(c, ops, c.sender.timer, 0, 0);
    var c1 := Run(c, ops);
    TickClock(c1, ms);
    TickProbes(c1.sender.timer, c.sender.timer, Elapsed(ops), Timeouts(c, ops), ms);
  }
}
